/** A cell of tuna/base/cell.py: its links to parent and children, its
    birth and division times, and the cache `_sdata` of computed observables,
    keyed by observable label. */
module Cells {
  import opened Wrappers
  import opened Text
  import opened Observables

  /** A numerical series; `None` is NaN, a value is "valid" when present. */
  type Series = seq<Option<real>>

  /** A cell's data: the acquisition times and one column per raw name. */
  datatype Frames = Frames(time: seq<real>, columns: map<string, Series>)

  /** A cache entry: the series of a time-lapse build or the value of a
      cell-cycle computation. */
  datatype Cached = SeriesEntry(values: Series) | ValueEntry(value: Option<real>)

  // ---------------------------------------------------------------------------
  // The numerical routines of tuna.datatools, as given functions

  datatype RatesInput = RatesInput(
    x: seq<real>, y: Series, xBreak: Option<real>, anteriorX: seq<real>, anteriorY: Series,
    scale: Scale, timeWindow: real, dt: Option<real>, joinPoints: nat)

  /** `r, f, ar, af` of `compute_rates`: rates and fitted values in the cell
      and in its parent's cycle. */
  datatype Rates = Rates(r: Series, f: Series, ar: Series, af: Series)

  datatype End = BirthEnd | DivisionEnd

  datatype ExtrapInput = ExtrapInput(
    birth: Option<real>, division: Option<real>, time: seq<real>, values: Series,
    scale: Scale, end: End, joinPoints: nat)

  /** `extrapolate` yields `None` for an ExtrapolationError; `rate` stands
      for the logarithm (on log scale) followed by the slope of `np.polyfit`. */
  datatype Datatools = Datatools(
    derivative: (seq<real>, Series) -> Series,
    logderivative: (seq<real>, Series) -> Series,
    computeRates: RatesInput -> Rates,
    extrapolate: ExtrapInput -> Option<Option<real>>,
    rate: (seq<real>, Series, Scale) -> Option<real>)

  /** Fitted values for the parent's cycle are one per parent time. */
  ghost predicate Shaped(tools: Datatools) {
    forall i: RatesInput :: |tools.computeRates(i).ar| == |i.anteriorX| && |tools.computeRates(i).af| == |i.anteriorX|
  }

  // ---------------------------------------------------------------------------
  // Time sets

  function Min(s: seq<real>): (m: real)
    requires |s| > 0
    ensures m in s && forall i :: 0 <= i < |s| ==> m <= s[i]
  {
    if |s| == 1 then s[0]
    else var m := Min(s[1..]); if s[0] <= m then s[0] else m
  }

  function Max(s: seq<real>): (m: real)
    requires |s| > 0
    ensures m in s && forall i :: 0 <= i < |s| ==> s[i] <= m
  {
    if |s| == 1 then s[0]
    else var m := Max(s[1..]); if s[0] >= m then s[0] else m
  }

  /** `_disjoint_time_sets`. */
  predicate DisjointTimeSets(ts1: seq<real>, ts2: seq<real>)
    ensures DisjointTimeSets(ts1, ts2) ==>
              forall i, j :: 0 <= i < |ts1| && 0 <= j < |ts2| ==> ts1[i] != ts2[j]
  {
    |ts1| == 0 || |ts2| == 0 || Max(ts1) < Min(ts2) || Max(ts2) < Min(ts1)
  }

  /** Two time sets are disjoint in this sense exactly when one lies wholly
      before the other; the test is symmetric. */
  lemma {:induction false} DisjointTimeSetsMeaning(a: seq<real>, b: seq<real>)
    ensures DisjointTimeSets(a, b) <==>
            |a| == 0 || |b| == 0
            || (forall i, j :: 0 <= i < |a| && 0 <= j < |b| ==> a[i] < b[j])
            || (forall i, j :: 0 <= i < |a| && 0 <= j < |b| ==> b[j] < a[i])
    ensures DisjointTimeSets(a, b) == DisjointTimeSets(b, a)
  {
    if |a| > 0 && |b| > 0 {
      var ia :| 0 <= ia < |a| && a[ia] == Max(a);
      var jb :| 0 <= jb < |b| && b[jb] == Min(b);
      var ja :| 0 <= ja < |a| && a[ja] == Min(a);
      var ib :| 0 <= ib < |b| && b[ib] == Max(b);
    }
  }

  /** Disjoint time sets share no time. */
  lemma DisjointNoCommon(a: seq<real>, b: seq<real>, t: real)
    requires DisjointTimeSets(a, b)
    ensures t !in a || t !in b
  {
  }

  /** The times at which a series is valid (`Coordinates(x, y).clear_x`). */
  function ClearX(x: seq<real>, y: Series): (r: seq<real>)
    requires |x| == |y|
    ensures forall i :: 0 <= i < |x| && y[i].Some? ==> x[i] in r
    ensures forall t :: t in r ==> exists i :: 0 <= i < |x| && y[i].Some? && x[i] == t
  {
    if |x| == 0 then []
    else
      var rest := ClearX(x[1..], y[1..]);
      assert forall i :: 1 <= i < |x| ==> x[i] == x[1..][i - 1] && y[i] == y[1..][i - 1];
      (if y[0].Some? then [x[0]] else []) + rest
  }

  predicate HasValid(y: Series) {
    exists i :: 0 <= i < |y| && y[i].Some?
  }

  /** `existing[addendum.valid] = addendum.clear_y`. */
  function Overwrite(existing: Series, add: Series): (r: Series)
    requires |existing| == |add|
    ensures |r| == |existing|
    ensures forall i :: 0 <= i < |r| ==> r[i] == if add[i].Some? then add[i] else existing[i]
  {
    seq(|existing|, i requires 0 <= i < |existing| => if add[i].Some? then add[i] else existing[i])
  }

  /** What the parent's cache holds under a label after a daughter offers
      `add` at the parent's times `x`: the whole series when there was none,
      else the valid values of `add` when there are some and their times are
      disjoint from the valid times already there, else what was there. */
  function MergeIntoParent(entry: Option<Series>, x: seq<real>, add: Series): (r: Series)
    requires |add| == |x|
    requires entry.Some? ==> |entry.value| == |x|
    ensures |r| == |x|
    ensures entry.Some? && r != entry.value ==> forall i :: 0 <= i < |x| && add[i].Some? ==> r[i] == add[i]
  {
    match entry
    case None => add
    case Some(e) =>
      if HasValid(add) && DisjointTimeSets(ClearX(x, e), ClearX(x, add)) then Overwrite(e, add) else e
  }

  /** First writer wins: a value already in the parent's cache is never
      replaced, and a merge either takes every valid value offered or none. */
  lemma {:induction false} MergeKeepsExisting(entry: Option<Series>, x: seq<real>, add: Series)
    requires |add| == |x|
    requires entry.Some? ==> |entry.value| == |x|
    ensures var r := MergeIntoParent(entry, x, add);
            |r| == |x|
            && (entry.Some? ==> forall i :: 0 <= i < |x| && entry.value[i].Some? ==> r[i] == entry.value[i])
            && (entry.None? ==> r == add)
            && (entry.Some? ==> r == entry.value || forall i :: 0 <= i < |x| && add[i].Some? ==> r[i] == add[i])
  {
    if entry.Some? {
      var e := entry.value;
      if HasValid(add) && DisjointTimeSets(ClearX(x, e), ClearX(x, add)) {
        forall i | 0 <= i < |x| && e[i].Some?
          ensures Overwrite(e, add)[i] == e[i]
        {
          if add[i].Some? {
            DisjointNoCommon(ClearX(x, e), ClearX(x, add), x[i]);
          }
        }
      }
    }
  }

  /** A merge happens only when the offered values are not all missing and
      their times do not overlap the times already valid. */
  lemma {:induction false} MergeOverlapUnchanged(e: Series, x: seq<real>, add: Series, i: nat, j: nat)
    requires |add| == |x| && |e| == |x|
    requires i < |x| && j < |x| && e[i].Some? && add[j].Some?
    requires Min(ClearX(x, e)) <= x[j] <= Max(ClearX(x, e))
    ensures MergeIntoParent(Some(e), x, add) == e
  {
    var ce, ca := ClearX(x, e), ClearX(x, add);
    assert x[j] in ca;
    assert Min(ca) <= x[j] <= Max(ca);
    assert !DisjointTimeSets(ce, ca);
  }

  // ---------------------------------------------------------------------------
  // Sampling period

  /** `r` is a whole number of hundredths nearest to `v`, the even number
      of hundredths on a tie. */
  predicate TwoDecimals(v: real, r: real) {
    IsHundredths(r) && NearestEven(v * 100.0, (r * 100.0).Floor)
  }

  /** `np.round(v, decimals=2)`. */
  function Round2(v: real): (r: real)
    ensures TwoDecimals(v, r)
    ensures v - 1.0 / 200.0 <= r <= v + 1.0 / 200.0
  {
    var n := RoundHalfEven(v * 100.0);
    HundredthsNearest(v, n);
    n as real / 100.0
  }

  /** `n` hundredths, for `n` nearest to `100 v`, is `v` to two decimals. */
  lemma HundredthsNearest(v: real, n: int)
    requires NearestEven(v * 100.0, n)
    ensures var r := n as real / 100.0;
            && (r * 100.0).Floor == n && IsHundredths(r)
            && v - 1.0 / 200.0 <= r <= v + 1.0 / 200.0
  {
    var r := n as real / 100.0;
    assert r * 100.0 == n as real;
  }

  function Abs(v: real): real { if v < 0.0 then -v else v }

  /** `np.amin(np.abs(arr[1:] - arr[:-1]))`. */
  function MinAbsIncrement(t: seq<real>): (m: real)
    requires |t| > 1
    ensures forall i :: 0 <= i < |t| - 1 ==> m <= Abs(t[i + 1] - t[i])
    ensures exists i :: 0 <= i < |t| - 1 && m == Abs(t[i + 1] - t[i])
  {
    var d := Abs(t[1] - t[0]);
    if |t| == 2 then d
    else
      var m := MinAbsIncrement(t[1..]);
      IncrementsOfTail(t, m);
      if d <= m then d else m
  }

  /** The increments of `t[1..]` are those of `t` from the second on. */
  lemma IncrementsOfTail(t: seq<real>, m: real)
    requires |t| > 2
    requires forall i :: 0 <= i < |t| - 2 ==> m <= Abs(t[1..][i + 1] - t[1..][i])
    requires exists i :: 0 <= i < |t| - 2 && m == Abs(t[1..][i + 1] - t[1..][i])
    ensures forall i :: 1 <= i < |t| - 1 ==> m <= Abs(t[i + 1] - t[i])
    ensures exists i :: 1 <= i < |t| - 1 && m == Abs(t[i + 1] - t[i])
  {
    var u := t[1..];
    assert forall i :: 0 <= i < |u| ==> u[i] == t[i + 1];
    var k :| 0 <= k < |t| - 2 && m == Abs(u[k + 1] - u[k]);
    assert m == Abs(t[k + 2] - t[k + 1]);
    forall i | 1 <= i < |t| - 1
      ensures m <= Abs(t[i + 1] - t[i])
    {
      assert t[i + 1] - t[i] == u[i] - u[i - 1];
    }
  }

  /** The time step handed to `compute_rates`: the container's period, else
      the smallest increment rounded to two decimals when there are two
      frames or more, else none. */
  function SamplingPeriod(period: Option<real>, t: seq<real>): (dt: Option<real>)
    ensures period.Some? ==> dt == period
    ensures period.None? && |t| <= 1 ==> dt.None?
    ensures period.None? && |t| > 1 ==>
              dt.Some?
              && (forall i :: 0 <= i < |t| - 1 ==> dt.value <= Abs(t[i + 1] - t[i]) + 1.0 / 200.0)
              && (exists i :: 0 <= i < |t| - 1 && Abs(dt.value - Abs(t[i + 1] - t[i])) <= 1.0 / 200.0)
    ensures period.None? && |t| > 1 ==> TwoDecimals(MinAbsIncrement(t), dt.value)
  {
    if period.Some? then period
    else if |t| > 1 then
      var m := MinAbsIncrement(t);
      var r := Round2(m);
      NearIncrements(t, m, r);
      Some(r)
    else None
  }

  /** A value within 0.005 of the smallest increment is within 0.005 of one
      increment and at most 0.005 above every increment. */
  lemma NearIncrements(t: seq<real>, m: real, r: real)
    requires |t| > 1
    requires forall i :: 0 <= i < |t| - 1 ==> m <= Abs(t[i + 1] - t[i])
    requires exists i :: 0 <= i < |t| - 1 && m == Abs(t[i + 1] - t[i])
    requires m - 1.0 / 200.0 <= r <= m + 1.0 / 200.0
    ensures forall i :: 0 <= i < |t| - 1 ==> r <= Abs(t[i + 1] - t[i]) + 1.0 / 200.0
    ensures exists i :: 0 <= i < |t| - 1 && Abs(r - Abs(t[i + 1] - t[i])) <= 1.0 / 200.0
  {
    var k :| 0 <= k < |t| - 1 && m == Abs(t[k + 1] - t[k]);
    assert Abs(r - Abs(t[k + 1] - t[k])) <= 1.0 / 200.0;
  }

  // ---------------------------------------------------------------------------
  // What a time-lapse build computes

  /** The parent's times and raw values, empty without a parent or when the
      parent has no frame. */
  function Anteriors(pdata: Option<Frames>, raw: string): (seq<real>, Series)
    requires pdata.Some? && |pdata.value.time| > 0 ==> raw in pdata.value.columns
  {
    if pdata.Some? && |pdata.value.time| > 0 then (pdata.value.time, pdata.value.columns[raw]) else ([], [])
  }

  /** The series a time-lapse build caches in the cell, and, with local
      fitting, the one it offers to the parent. */
  datatype TimelapseOut = TimelapseOut(toCell: Series, toParent: Option<Series>)

  /** The computing part of `build_timelapse` for a cell with frames: the
      raw column, its derivative or log-derivative, or the local fit's
      results computed with the sampling period. */
  function TimelapseValues(fr: Frames, birth: Option<real>, antX: seq<real>, antY: Series,
                           period: Option<real>, obs: Observable, tools: Datatools): (out: TimelapseOut)
    requires obs.raw in fr.columns
    ensures !obs.localFit <==> out.toParent.None?
    ensures !obs.localFit && !obs.differentiate ==> out.toCell == fr.columns[obs.raw]
    ensures obs.localFit && Shaped(tools) ==> |out.toParent.value| == |antX|
  {
    var y := fr.columns[obs.raw];
    if !obs.localFit then
      if !obs.differentiate then TimelapseOut(y, None)
      else if obs.scale == Linear then TimelapseOut(tools.derivative(fr.time, y), None)
      else TimelapseOut(tools.logderivative(fr.time, y), None)
    else
      var rates := tools.computeRates(RatesInput(fr.time, y, birth, antX, antY, obs.scale, obs.timeWindow,
                                                 SamplingPeriod(period, fr.time), obs.joinPoints));
      if obs.differentiate then TimelapseOut(rates.r, Some(rates.ar)) else TimelapseOut(rates.f, Some(rates.af))
  }

  // ---------------------------------------------------------------------------
  // What a cell-cycle computation computes

  /** `except ExtrapolationError: value = np.nan`. */
  function Caught(v: Option<Option<real>>): Option<real> {
    if v.None? then None else v.value
  }

  function Sum(vs: Series): real {
    if vs == [] then 0.0 else (if vs[0].Some? then vs[0].value else 0.0) + Sum(vs[1..])
  }

  function Count(vs: Series): nat {
    if vs == [] then 0 else (if vs[0].Some? then 1 else 0) + Count(vs[1..])
  }

  /** `np.nanmean`: the mean of the valid values, NaN when there is none. */
  function NanMean(vs: Series): Option<real> {
    if Count(vs) == 0 then None else Some(Sum(vs) / Count(vs) as real)
  }

  lemma {:induction false} SumBounds(vs: Series, lo: real, hi: real)
    requires forall i :: 0 <= i < |vs| && vs[i].Some? ==> lo <= vs[i].value <= hi
    ensures lo * Count(vs) as real <= Sum(vs) <= hi * Count(vs) as real
  {
    if vs != [] {
      SumBounds(vs[1..], lo, hi);
    }
  }

  /** The mean of the valid values lies between their bounds. */
  lemma {:induction false} NanMeanBounds(vs: Series, lo: real, hi: real)
    requires forall i :: 0 <= i < |vs| && vs[i].Some? ==> lo <= vs[i].value <= hi
    requires HasValid(vs)
    ensures NanMean(vs).Some? && lo <= NanMean(vs).value <= hi
  {
    CountPositive(vs);
    SumBounds(vs, lo, hi);
    DivideBounds(Sum(vs), Count(vs) as real, lo, hi);
  }

  lemma DivideBounds(a: real, c: real, lo: real, hi: real)
    requires c > 0.0 && lo * c <= a <= hi * c
    ensures lo <= a / c <= hi
  {
    var m := a / c;
    assert a == m * c;
  }

  lemma {:induction false} CountPositive(vs: Series)
    requires HasValid(vs)
    ensures Count(vs) > 0
  {
    if !vs[0].Some? {
      var i :| 0 <= i < |vs| && vs[i].Some?;
      assert vs[1..][i - 1] == vs[i];
      CountPositive(vs[1..]);
    }
  }

  function Subtract(a: Option<real>, b: Option<real>): Option<real> {
    if a.Some? && b.Some? then Some(a.value - b.value) else None
  }

  function Ratio(a: Option<real>, b: Option<real>): Option<real> {
    if a.Some? && b.Some? && b.value != 0.0 then Some(a.value / b.value) else None
  }

  /** The errors of `compute_cyclized`: ValueError for a dynamic observable,
      KeyError when no time-lapse was cached, and the UnboundLocalError of a
      mode none of the branches computes. */
  datatype CyclizedError = DynamicsModeError | MissingTimelapse | UnboundValue

  /** The value `compute_cyclized` computes from the time-lapse series. */
  function CyclizedValue(mode: Mode, time: seq<real>, values: Series, birth: Option<real>,
                         division: Option<real>, scale: Scale, npts: nat, tools: Datatools): (r: Result<Option<real>, CyclizedError>)
    ensures r.Err? ==> r.error == UnboundValue
  {
    var atBirth := tools.extrapolate(ExtrapInput(birth, division, time, values, scale, BirthEnd, npts));
    var atDivision := tools.extrapolate(ExtrapInput(birth, division, time, values, scale, DivisionEnd, npts));
    CyclizedBranch(ModeName(mode), atBirth, atDivision, NanMean(values), tools.rate(time, values, scale))
  }

  /** The branches on the mode word, given the two extrapolated end values,
      the NaN-mean and the fitted rate. */
  function CyclizedBranch(name: string, atBirth: Option<Option<real>>, atDivision: Option<Option<real>>,
                          mean: Option<real>, rate: Option<real>): (r: Result<Option<real>, CyclizedError>)
    ensures r.Err? ==> r.error == UnboundValue
  {
    if name == "birth" then Ok(Caught(atBirth))
    else if name == "division" then Ok(Caught(atDivision))
    else if Contains(name, "net-increase") then
      if atDivision.None? || atBirth.None? then Ok(None)
      else if name == "net-increase-additive" then Ok(Subtract(atDivision.value, atBirth.value))
      else if name == "net-increase-multiplicative" then Ok(Ratio(atDivision.value, atBirth.value))
      else Err(UnboundValue)
    else if name == "average" then Ok(mean)
    else if name == "rate" then Ok(rate)
    else Err(UnboundValue)
  }

  /** Every named cell-cycle mode yields a value, an extrapolation failure
      yields NaN, and net increases are the difference or ratio of the two
      end values. */
  lemma {:induction false} CyclizedModes(mode: Mode, time: seq<real>, values: Series, birth: Option<real>,
                                        division: Option<real>, scale: Scale, npts: nat, tools: Datatools)
    requires mode in {Birth, Division, NetIncreaseAdditive, NetIncreaseMultiplicative, Average, Rate}
    ensures CyclizedValue(mode, time, values, birth, division, scale, npts, tools).Ok?
    ensures var b := tools.extrapolate(ExtrapInput(birth, division, time, values, scale, BirthEnd, npts));
            var d := tools.extrapolate(ExtrapInput(birth, division, time, values, scale, DivisionEnd, npts));
            var r := CyclizedValue(mode, time, values, birth, division, scale, npts, tools).value;
            && (mode == Birth ==> r == Caught(b))
            && (mode == Division ==> r == Caught(d))
            && (mode == NetIncreaseAdditive && b.Some? && d.Some? ==> r == Subtract(d.value, b.value))
            && (mode == NetIncreaseMultiplicative && b.Some? && d.Some? ==> r == Ratio(d.value, b.value))
            && (mode.NetIncreaseAdditive? || mode.NetIncreaseMultiplicative? ==> (b.None? || d.None? ==> r.None?))
            && (mode == Average ==> r == NanMean(values))
  {
    var b := tools.extrapolate(ExtrapInput(birth, division, time, values, scale, BirthEnd, npts));
    var d := tools.extrapolate(ExtrapInput(birth, division, time, values, scale, DivisionEnd, npts));
    BranchNames(b, d, NanMean(values), tools.rate(time, values, scale));
  }

  /** What each mode word selects. */
  lemma BranchNames(b: Option<Option<real>>, d: Option<Option<real>>, mean: Option<real>, rate: Option<real>)
    ensures CyclizedBranch("birth", b, d, mean, rate) == Ok(Caught(b))
    ensures CyclizedBranch("division", b, d, mean, rate) == Ok(Caught(d))
    ensures CyclizedBranch("net-increase-additive", b, d, mean, rate)
            == Ok(if d.None? || b.None? then None else Subtract(d.value, b.value))
    ensures CyclizedBranch("net-increase-multiplicative", b, d, mean, rate)
            == Ok(if d.None? || b.None? then None else Ratio(d.value, b.value))
    ensures CyclizedBranch("average", b, d, mean, rate) == Ok(mean)
    ensures CyclizedBranch("rate", b, d, mean, rate) == Ok(rate)
  {
    NetIncreaseNames();
    AverageName();
    RateName();
  }

  lemma AverageName()
    ensures !Contains("average", "net-increase")
  {
    assert "average"[1..] == "verage" && "verage"[1..] == "erage" && "erage"[1..] == "rage";
    assert "rage"[1..] == "age" && "age"[1..] == "ge" && "ge"[1..] == "e" && "e"[1..] == "";
  }

  lemma RateName()
    ensures !Contains("rate", "net-increase")
  {
    assert "rate"[1..] == "ate" && "ate"[1..] == "te" && "te"[1..] == "e" && "e"[1..] == "";
  }

  lemma NetIncreaseNames()
    ensures Contains("net-increase-additive", "net-increase")
    ensures Contains("net-increase-multiplicative", "net-increase")
    ensures !Contains("birth", "net-increase") && !Contains("division", "net-increase")
  {
    assert "net-increase-additive"[0..12] == "net-increase";
    assert "net-increase-multiplicative"[0..12] == "net-increase";
  }

  /** The continuous counterpart `compute_cyclized` builds first: a copy in
      dynamics mode at timing 't', keeping its name. */
  function Continuous(obs: Observable): (c: Observable)
    ensures c.mode == Dynamics && c.timing == T
    ensures Label(c) == Label(AsTimelapse(obs))
  {
    obs.(mode := Dynamics, timing := T)
  }

  // ---------------------------------------------------------------------------
  // Division events

  datatype CellError = ChildsError | ParentError | DivisionError | IndexError

  /** The time `set_division_event` writes: halfway between the parent's
      last frame and the cell's first; an IndexError when a present frame
      array is empty (the parent's is read first). `None` times stand for no
      parent or no data. */
  function DivisionEventTime(parentTimes: Option<seq<real>>, ownTimes: Option<seq<real>>): (r: Result<Option<real>, CellError>)
    ensures r.Err? <==> (parentTimes.Some? && |parentTimes.value| == 0) || (ownTimes.Some? && |ownTimes.value| == 0)
    ensures r.Err? ==> r.error == IndexError
    ensures r.Ok? && r.value.Some? <==> r.Ok? && parentTimes.Some? && ownTimes.Some?
  {
    if parentTimes.Some? && |parentTimes.value| == 0 then Err(IndexError)
    else if ownTimes.Some? && |ownTimes.value| == 0 then Err(IndexError)
    else if parentTimes.Some? && ownTimes.Some? then
      Ok(Some((parentTimes.value[|parentTimes.value| - 1] + ownTimes.value[0]) / 2.0))
    else Ok(None)
  }

  /** The division time lies between the parent's last frame and the cell's
      first. */
  lemma DivisionEventMidpoint(pt: seq<real>, ot: seq<real>)
    requires |pt| > 0 && |ot| > 0 && pt[|pt| - 1] <= ot[0]
    ensures var r := DivisionEventTime(Some(pt), Some(ot));
            r.Ok? && r.value.Some? && pt[|pt| - 1] <= r.value.value <= ot[0]
  {
  }

  /** The division time setter refuses a value before the birth time (in
      Python 2 `None` orders before every number). */
  predicate DivisionRefused(birth: Option<real>, v: Option<real>) {
    birth.Some? && (v.None? || v.value < birth.value)
  }

  /** The birth time of the cell and the division time of its parent. */
  datatype EventState = EventState(birth: Option<real>, parentDivision: Option<real>)

  function DivisionEventState(s: EventState, parentTimes: Option<seq<real>>, ownTimes: Option<seq<real>>,
                              parentBirth: Option<real>): (r: EventState)
    ensures parentTimes.None? || ownTimes.None? || |parentTimes.value| == 0 || |ownTimes.value| == 0 ==> r == s
    ensures r.birth != s.birth ==> parentTimes.Some? && ownTimes.Some?
    ensures r.parentDivision == s.parentDivision || r.parentDivision == r.birth
  {
    match DivisionEventTime(parentTimes, ownTimes)
    case Err(_) => s
    case Ok(None) => s
    case Ok(Some(t)) =>
      EventState(Some(t), if DivisionRefused(parentBirth, Some(t)) then s.parentDivision else Some(t))
  }

  /** A second division event changes nothing further. */
  lemma DivisionEventIdempotent(s: EventState, pt: Option<seq<real>>, ot: Option<seq<real>>, pb: Option<real>)
    ensures var s1 := DivisionEventState(s, pt, ot, pb);
            DivisionEventState(s1, pt, ot, pb) == s1
  {
  }

  /** When both frame arrays are non-empty and the parent accepts the time,
      the cell's birth and the parent's division coincide. */
  lemma DivisionEventLinks(s: EventState, pt: seq<real>, ot: seq<real>, pb: Option<real>)
    requires |pt| > 0 && |ot| > 0
    requires !DivisionRefused(pb, Some((pt[|pt| - 1] + ot[0]) / 2.0))
    ensures var s1 := DivisionEventState(s, Some(pt), Some(ot), pb);
            s1.birth == s1.parentDivision == Some((pt[|pt| - 1] + ot[0]) / 2.0)
  {
  }

  // ---------------------------------------------------------------------------
  // The childs setter

  /** The value assigned to `childs`: None, a cell, a list of such values,
      or anything else. */
  datatype ChildsArg = NoChilds | OneChild(cell: Cell) | ChildList(items: seq<ChildsArg>) | NotACell

  /** `v` holds a None, at the top or inside a list: assigning it empties
      the children. */
  predicate HasNone(v: ChildsArg)
    decreases v, 1
  {
    match v
    case NoChilds => true
    case ChildList(items) => AnyNone(items)
    case _ => false
  }

  /** Some item of `items` holds a None. */
  predicate AnyNone(items: seq<ChildsArg>)
    decreases items, 0
  {
    items != [] && (HasNone(items[0]) || AnyNone(items[1..]))
  }

  /** The children after assigning `v`, and whether CellChildsError was
      raised (the items of a list before the bad one stay applied). */
  function ChildsAfter(cur: seq<Cell>, v: ChildsArg): (r: (seq<Cell>, bool))
    ensures v.NotACell? ==> r == (cur, true)
    ensures r.1 ==> v.NotACell? || v.ChildList?
    decreases v, 1
  {
    match v
    case NoChilds => ([], false)
    case OneChild(c) => (cur + [c], false)
    case ChildList(items) => ChildListAfter(cur, items)
    case NotACell => (cur, true)
  }

  function ChildListAfter(cur: seq<Cell>, items: seq<ChildsArg>): (r: (seq<Cell>, bool))
    decreases items, 0
  {
    if items == [] then (cur, false)
    else
      var (c1, raised) := ChildsAfter(cur, items[0]);
      if raised then (c1, true) else ChildListAfter(c1, items[1..])
  }

  function AsChildList(cells: seq<Cell>): (r: seq<ChildsArg>)
    ensures |r| == |cells| && forall i :: 0 <= i < |cells| ==> r[i] == OneChild(cells[i])
  {
    if cells == [] then [] else [OneChild(cells[0])] + AsChildList(cells[1..])
  }

  /** Assigning a value that holds no None only appends to the children. */
  lemma {:induction false} ChildsAfterExtends(cur: seq<Cell>, v: ChildsArg)
    ensures !HasNone(v) ==> cur <= ChildsAfter(cur, v).0
    decreases v, 1
  {
    if v.ChildList? {
      ChildListAfterExtends(cur, v.items);
    }
  }

  lemma {:induction false} ChildListAfterExtends(cur: seq<Cell>, items: seq<ChildsArg>)
    ensures !AnyNone(items) ==> cur <= ChildListAfter(cur, items).0
    decreases items, 0
  {
    if items != [] && !AnyNone(items) {
      ChildsAfterExtends(cur, items[0]);
      var (c1, raised) := ChildsAfter(cur, items[0]);
      if !raised {
        ChildListAfterExtends(c1, items[1..]);
      }
    }
  }

  /** Assigning a list of cells appends them in order. */
  lemma {:induction false} ChildListAppends(cur: seq<Cell>, cells: seq<Cell>)
    ensures ChildsAfter(cur, ChildList(AsChildList(cells))) == (cur + cells, false)
  {
    ChildItemsAppend(cur, cells);
  }

  lemma {:induction false} ChildItemsAppend(cur: seq<Cell>, cells: seq<Cell>)
    ensures ChildListAfter(cur, AsChildList(cells)) == (cur + cells, false)
    decreases cells
  {
    if cells == [] {
      assert cur + cells == cur;
    } else {
      var items := AsChildList(cells);
      ChildItemsAppend(cur + [cells[0]], cells[1..]);
      assert items[1..] == AsChildList(cells[1..]);
      assert ChildsAfter(cur, OneChild(cells[0])) == (cur + [cells[0]], false);
      assert cur + [cells[0]] + cells[1..] == cur + cells;
    }
  }

  /** A list holding anything but cells, lists and None raises. */
  lemma {:induction false} ChildListRaises(cur: seq<Cell>, cells: seq<Cell>, rest: seq<ChildsArg>)
    ensures ChildListAfter(cur, AsChildList(cells) + [NotACell] + rest) == (cur + cells, true)
    decreases cells
  {
    if cells == [] {
      assert AsChildList(cells) + [NotACell] + rest == [NotACell] + rest;
      assert cur + cells == cur;
    } else {
      assert (AsChildList(cells) + [NotACell] + rest)[1..] == AsChildList(cells[1..]) + [NotACell] + rest;
      ChildListRaises(cur + [cells[0]], cells[1..], rest);
      assert cur + [cells[0]] + cells[1..] == cur + cells;
    }
  }

  // ---------------------------------------------------------------------------
  // The cell

  datatype ParentArg = NoParent | ParentCell(cell: Cell) | NotAParent

  /** What `build` returns: nothing for a time-lapse, the value otherwise. */
  datatype Built = TimelapseBuilt | CyclizedBuilt(result: Result<Option<real>, CyclizedError>)

  class Cell {
    const identifier: string
    /** The sampling period of the cell's container, when known. */
    const period: Option<real>
    var data: Option<Frames>
    var childs: seq<Cell>
    var parent: Cell?
    var birthTime: Option<real>
    var divisionTime: Option<real>
    var sdata: map<string, Cached>

    constructor(identifier: string, period: Option<real>, data: Option<Frames>)
      ensures this.identifier == identifier && this.period == period && this.data == data
      ensures childs == [] && parent == null && birthTime == None && divisionTime == None && sdata == map[]
    {
      this.identifier := identifier;
      this.period := period;
      this.data := data;
      childs := [];
      parent := null;
      birthTime := None;
      divisionTime := None;
      sdata := map[];
    }

    /** The `childs` setter. */
    method SetChilds(v: ChildsArg) returns (raised: bool)
      modifies this`childs
      ensures (childs, raised) == ChildsAfter(old(childs), v)
      decreases v
    {
      match v
      case NoChilds =>
        childs := [];
        raised := false;
      case OneChild(c) =>
        childs := childs + [c];
        raised := false;
      case NotACell =>
        raised := true;
      case ChildList(items) =>
        ghost var start := childs;
        var i := 0;
        raised := false;
        while i < |items|
          invariant 0 <= i <= |items|
          invariant ChildListAfter(start, items) == ChildListAfter(childs, items[i..])
        {
          assert items[i..][1..] == items[i + 1..];
          raised := SetChilds(items[i]);
          if raised {
            return;
          }
          i := i + 1;
        }
    }

    /** The `parent` setter. */
    method SetParent(v: ParentArg) returns (err: Option<CellError>)
      modifies this`parent
      ensures v.NoParent? ==> parent == null && err.None?
      ensures v.ParentCell? ==> parent == v.cell && err.None?
      ensures v.NotAParent? ==> parent == old(parent) && err == Some(ParentError)
    {
      err := None;
      match v
      case NoParent => parent := null;
      case ParentCell(c) => parent := c;
      case NotAParent => err := Some(ParentError);
    }

    /** The `birth_time` setter: unchecked. */
    method SetBirthTime(v: Option<real>)
      modifies this`birthTime
      ensures birthTime == v
    {
      birthTime := v;
    }

    /** The `division_time` setter. */
    method SetDivisionTime(v: Option<real>) returns (err: Option<CellError>)
      modifies this`divisionTime
      ensures DivisionRefused(birthTime, v) ==> err == Some(DivisionError) && divisionTime == old(divisionTime)
      ensures !DivisionRefused(birthTime, v) ==> err.None? && divisionTime == v
    {
      if birthTime.Some? {
        if v.None? || v.value < birthTime.value {
          return Some(DivisionError);
        }
      }
      divisionTime := v;
      err := None;
    }

    function ParentTimes(): Option<seq<real>>
      reads this, parent
    {
      if parent != null && parent.data.Some? then Some(parent.data.value.time) else None
    }

    function OwnTimes(): Option<seq<real>>
      reads this
    {
      if data.Some? then Some(data.value.time) else None
    }

    /** `set_division_event`. The birth time is written before the parent's
      division time, so when the parent refuses it the birth time stays. */
    method SetDivisionEvent() returns (err: Option<CellError>)
      requires parent != this
      modifies this`birthTime, (if parent == null then {} else {parent})`divisionTime
      ensures var t := DivisionEventTime(old(ParentTimes()), old(OwnTimes()));
              var pb := if parent == null then None else parent.birthTime;
              var s := DivisionEventState(EventState(old(birthTime), if parent == null then None else old(parent.divisionTime)),
                                          old(ParentTimes()), old(OwnTimes()), pb);
              && birthTime == s.birth
              && (parent != null ==> parent.divisionTime == s.parentDivision)
              && (t.Err? ==> err == Some(IndexError))
              && (t == Ok(None) ==> err.None?)
              && (t.Ok? && t.value.Some? ==> (err == Some(DivisionError) <==> DivisionRefused(pb, t.value)))
              && (t.Ok? && t.value.Some? ==> (err.None? <==> !DivisionRefused(pb, t.value)))
    {
      var previous: Option<real> := None;
      if parent != null && parent.data.Some? {
        var pt := parent.data.value.time;
        if |pt| == 0 {
          return Some(IndexError);
        }
        previous := Some(pt[|pt| - 1]);
      }
      var first: Option<real> := None;
      if data.Some? {
        var ot := data.value.time;
        if |ot| == 0 {
          return Some(IndexError);
        }
        first := Some(ot[0]);
      }
      err := None;
      if previous.Some? && first.Some? {
        var div := (previous.value + first.value) / 2.0;
        SetBirthTime(Some(div));
        err := parent.SetDivisionTime(Some(div));
      }
    }

    /** What `build_timelapse` relies on: data with the raw column; a parent
      with data when there is one; more than one frame to differentiate
      without local fitting; with local fitting a parent whose cache entry
      for the label, if any, is a series over the parent's frames. */
    ghost predicate TimelapseReady(obs: Observable, tools: Datatools)
      reads this, parent
    {
      && parent != this
      && data.Some? && obs.raw in data.value.columns
      && |data.value.columns[obs.raw]| == |data.value.time|
      && (parent != null ==>
            parent.data.Some?
            && (|parent.data.value.time| > 0 ==>
                  obs.raw in parent.data.value.columns
                  && |parent.data.value.columns[obs.raw]| == |parent.data.value.time|))
      && (obs.differentiate && !obs.localFit ==> |data.value.time| != 1)
      && (obs.localFit ==>
            parent != null && Shaped(tools)
            && (Label(obs) in parent.sdata ==>
                  parent.sdata[Label(obs)].SeriesEntry?
                  && |parent.sdata[Label(obs)].values| == |Anteriors(parent.data, obs.raw).0|))
    }

    function ParentData(): Option<Frames>
      reads this, parent
    {
      if parent == null then None else parent.data
    }

    function ParentEntry(key: string): Option<Series>
      reads this, parent
    {
      if parent != null && key in parent.sdata && parent.sdata[key].SeriesEntry?
      then Some(parent.sdata[key].values) else None
    }

    /** What a time-lapse build computes from the present state of a cell
      with frames. */
    ghost function TimelapseOutput(obs: Observable, tools: Datatools): TimelapseOut
      requires TimelapseReady(obs, tools)
      reads this, parent
    {
      var ant := Anteriors(ParentData(), obs.raw);
      TimelapseValues(data.value, birthTime, ant.0, ant.1, period, obs, tools)
    }

    /** The cell's cache once `build_timelapse` has run: unchanged without
      frames, else the series under the label. */
    ghost function CacheAfterTimelapse(obs: Observable, tools: Datatools): map<string, Cached>
      requires TimelapseReady(obs, tools)
      reads this, parent
    {
      if |data.value.time| == 0 then sdata
      else sdata[Label(obs) := SeriesEntry(TimelapseOutput(obs, tools).toCell)]
    }

    /** The parent's cache once `build_timelapse` has run: with frames and
      local fitting, the entry under the label merged as `MergeIntoParent`
      says; otherwise unchanged. */
    ghost function ParentCacheAfterTimelapse(obs: Observable, tools: Datatools): map<string, Cached>
      requires TimelapseReady(obs, tools) && parent != null
      reads this, parent
    {
      if |data.value.time| == 0 || !obs.localFit then parent.sdata
      else parent.sdata[Label(obs) := SeriesEntry(MergeIntoParent(ParentEntry(Label(obs)),
                                                                  Anteriors(ParentData(), obs.raw).0,
                                                                  TimelapseOutput(obs, tools).toParent.value))]
    }

    /** `build_timelapse`: the two caches become what `CacheAfterTimelapse`
      and `ParentCacheAfterTimelapse` say. */
    method BuildTimelapse(obs: Observable, tools: Datatools)
      requires TimelapseReady(obs, tools)
      modifies this`sdata, (if parent == null then {} else {parent})`sdata
      ensures sdata == old(CacheAfterTimelapse(obs, tools))
      ensures parent != null ==> parent.sdata == old(ParentCacheAfterTimelapse(obs, tools))
    {
      var key := Label(obs);
      var fr := data.value;
      var antX: seq<real>, antY: Series := [], [];
      if parent != null && |parent.data.value.time| > 0 {
        antX, antY := parent.data.value.time, parent.data.value.columns[obs.raw];
      }
      if |fr.time| == 0 {
        return;
      }
      var out := TimelapseValues(fr, birthTime, antX, antY, period, obs, tools);
      sdata := sdata[key := SeriesEntry(out.toCell)];
      if obs.localFit {
        parent.MergeEntry(key, antX, out.toParent.value);
      }
    }

    /** The parent side of the local-fit write-back (`_sdata` of the parent
      under `key`). */
    method MergeEntry(key: string, x: seq<real>, add: Series)
      requires |add| == |x|
      requires key in sdata ==> sdata[key].SeriesEntry? && |sdata[key].values| == |x|
      modifies this`sdata
      ensures var entry := if key in old(sdata) then Some(old(sdata)[key].values) else None;
              sdata == old(sdata)[key := SeriesEntry(MergeIntoParent(entry, x, add))]
    {
      if key !in sdata {
        sdata := sdata[key := SeriesEntry(add)];
      } else if HasValid(add) {
        var existing := sdata[key].values;
        if DisjointTimeSets(ClearX(x, existing), ClearX(x, add)) {
          sdata := sdata[key := SeriesEntry(Overwrite(existing, add))];
        } else {
          assert sdata == sdata[key := SeriesEntry(existing)];
        }
      } else {
        assert sdata == sdata[key := SeriesEntry(sdata[key].values)];
      }
    }

    /** The outcome of `compute_cyclized` once the time-lapse is built:
      `built` is the cache after that build and `after` the cache at the
      end. The series is missing exactly when `built` holds no series under
      the continuous label; otherwise the result is `CyclizedValue` of that
      series, and a value is cached under the label. */
    ghost predicate CyclizedOutcome(obs: Observable, tools: Datatools, built: map<string, Cached>,
                                    after: map<string, Cached>, r: Result<Option<real>, CyclizedError>)
      reads this
    {
      var c := Label(Continuous(obs));
      && data.Some?
      && (r == Err(MissingTimelapse) <==> !(c in built && built[c].SeriesEntry?))
      && (r != Err(MissingTimelapse) ==>
            r == CyclizedValue(obs.mode, data.value.time, built[c].values, birthTime, divisionTime,
                               obs.scale, obs.joinPoints, tools))
      && after == (if r.Ok? then built[Label(obs) := ValueEntry(r.value)] else built)
    }

    /** `compute_cyclized`: refuses a dynamic observable before touching the
      cache; otherwise builds the continuous counterpart, which sets both
      caches, computes the value from the cell's times and that series, and
      caches the value under the label. */
    method ComputeCyclized(obs: Observable, tools: Datatools) returns (r: Result<Option<real>, CyclizedError>)
      requires ModeName(obs.mode) != "dynamics" ==> TimelapseReady(Continuous(obs), tools)
      modifies this`sdata, (if parent == null then {} else {parent})`sdata
      ensures ModeName(obs.mode) == "dynamics" ==>
                r == Err(DynamicsModeError) && sdata == old(sdata)
                && (parent != null ==> parent.sdata == old(parent.sdata))
      ensures ModeName(obs.mode) != "dynamics" ==>
                CyclizedOutcome(obs, tools, old(CacheAfterTimelapse(Continuous(obs), tools)), sdata, r)
                && (parent != null ==> parent.sdata == old(ParentCacheAfterTimelapse(Continuous(obs), tools)))
      ensures r.Ok? ==> Label(obs) in sdata && sdata[Label(obs)] == ValueEntry(r.value)
      ensures r == Err(MissingTimelapse) ==> |data.value.time| == 0
    {
      if ModeName(obs.mode) == "dynamics" {
        return Err(DynamicsModeError);
      }
      var cobs := Continuous(obs);
      BuildTimelapse(cobs, tools);
      r := CacheCyclizedValue(obs, tools);
    }

    /** The second half of `compute_cyclized`, once the continuous series is
      built: read it from the cache, compute the value and cache it. */
    method CacheCyclizedValue(obs: Observable, tools: Datatools) returns (r: Result<Option<real>, CyclizedError>)
      requires ModeName(obs.mode) != "dynamics" && data.Some?
      modifies this`sdata
      ensures CyclizedOutcome(obs, tools, old(sdata), sdata, r)
      ensures r.Ok? ==> Label(obs) in sdata && sdata[Label(obs)] == ValueEntry(r.value)
    {
      var key := Label(obs);
      var clabel := Label(Continuous(obs));
      if clabel !in sdata || !sdata[clabel].SeriesEntry? {
        return Err(MissingTimelapse);
      }
      var values := sdata[clabel].values;
      r := CyclizedValue(obs.mode, data.value.time, values, birthTime, divisionTime, obs.scale, obs.joinPoints, tools);
      if r.Ok? {
        assert key != clabel by { LabelModeDiffers(obs); }
        sdata := sdata[key := ValueEntry(r.value)];
      }
    }

    /** `build`: dynamics mode builds a time-lapse, any other mode a
      cell-cycle value. */
    method Build(obs: Observable, tools: Datatools) returns (b: Built)
      requires ModeName(obs.mode) == "dynamics" ==> TimelapseReady(obs, tools)
      requires ModeName(obs.mode) != "dynamics" ==> TimelapseReady(Continuous(obs), tools)
      modifies this`sdata, (if parent == null then {} else {parent})`sdata
      ensures ModeName(obs.mode) == "dynamics" <==> b.TimelapseBuilt?
      ensures b.TimelapseBuilt? ==>
                sdata == old(CacheAfterTimelapse(obs, tools))
                && (parent != null ==> parent.sdata == old(ParentCacheAfterTimelapse(obs, tools)))
      ensures b.CyclizedBuilt? ==>
                CyclizedOutcome(obs, tools, old(CacheAfterTimelapse(Continuous(obs), tools)), sdata, b.result)
                && (parent != null ==> parent.sdata == old(ParentCacheAfterTimelapse(Continuous(obs), tools)))
      ensures b.CyclizedBuilt? && b.result.Ok? ==> Label(obs) in sdata && sdata[Label(obs)] == ValueEntry(b.result.value)
    {
      if ModeName(obs.mode) == "dynamics" {
        BuildTimelapse(obs, tools);
        b := TimelapseBuilt;
      } else {
        var r := ComputeCyclized(obs, tools);
        b := CyclizedBuilt(r);
      }
    }
  }

  /** The label of a cell-cycle observable is not the label of its
      continuous counterpart, so caching the value keeps the series. */
  lemma {:induction false} LabelModeDiffers(obs: Observable)
    requires ModeName(obs.mode) != "dynamics"
    ensures Label(obs) != Label(Continuous(obs))
  {
    var c := Continuous(obs);
    var p1, s1 := LabelAroundMode(obs);
    var p2, s2 := LabelAroundMode(c);
    if TimingChar(obs.timing) != 't' {
      assert (p1 + ModeName(obs.mode) + s1)[1] == TimingChar(obs.timing);
      assert (p2 + ModeName(c.mode) + s2)[1] == 't';
    } else {
      assert p1 == p2 && s1 == s2;
      SameFrameSameMiddle(p1, ModeName(obs.mode), ModeName(c.mode), s1);
    }
  }

  lemma SameFrameSameMiddle(p: string, m1: string, m2: string, s: string)
    ensures p + m1 + s == p + m2 + s ==> m1 == m2
  {
    if p + m1 + s == p + m2 + s {
      assert m1 == (p + m1 + s)[|p|..|p| + |m1|];
    }
  }

  /** A label is what precedes the mode word, the word, and what follows it;
      neither outer part depends on the mode. */
  lemma LabelAroundMode(o: Observable) returns (before: string, after: string)
    ensures before == "T" + [TimingChar(o.timing)] + TrefString(o.tref) + "M"
    ensures after == "J" + NatToString(o.joinPoints) + "_"
                     + ((if o.differentiate then "dot_" else "")
                        + ((if o.localFit then "W" + Fixed2(o.timeWindow) + "_" else "")
                           + ((if o.scale == Log then "log_" else "") + o.raw)))
    ensures Label(o) == before + ModeName(o.mode) + after
  {
    before := "T" + [TimingChar(o.timing)] + TrefString(o.tref) + "M";
    after := "J" + NatToString(o.joinPoints) + "_"
             + ((if o.differentiate then "dot_" else "")
                + ((if o.localFit then "W" + Fixed2(o.timeWindow) + "_" else "")
                   + ((if o.scale == Log then "log_" else "") + o.raw)));
    var tail := (if o.differentiate then "dot_" else "")
                + ((if o.localFit then "W" + Fixed2(o.timeWindow) + "_" else "")
                   + ((if o.scale == Log then "log_" else "") + o.raw));
    var m, n := ModeName(o.mode), NatToString(o.joinPoints);
    assert Head(o) == before + m + "J" + n;
    assert Label(o) == before + m + "J" + n + "_" + tail;
    assert after == "J" + n + "_" + tail;
    Regroup(before, m, n, tail);
  }

  lemma Regroup(b: string, m: string, n: string, t: string)
    ensures b + m + "J" + n + "_" + t == b + m + ("J" + n + "_" + t)
  {
  }
}
