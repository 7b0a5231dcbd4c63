/** The dashboard's monthly bucketing helper `generateMonthlyEnquiries`,
    which counts the enquiries of each calendar month. The chart itself
    reads the `monthlyEnquiries` of the statistics response; the helper is
    not called. Reading the month of a date (`new Date(d).getMonth()`) is
    a parameter of the model. */
module Dashboard {
  import opened Js

  const Months: seq<string> := ["Jan", "Feb", "Mar", "Apr", "May", "Jun", "Jul", "Aug", "Sep", "Oct", "Nov", "Dec"]

  /** What `getMonth` gives for a valid date. */
  type MonthIndex = m: int | 0 <= m < 12

  /** One month entry, in the `{name, enquiries}` shape the chart's bars take. */
  datatype MonthBar = MonthBar(name: string, enquiries: nat)

  /** The month an enquiry is counted in, if any: enquiries without a
      truthy `date` are skipped, and an invalid date (`getMonth()` is NaN)
      reaches none of the twelve months. */
  function CountedMonth(enquiry: Json, monthOf: Json -> Option<MonthIndex>): Option<MonthIndex> {
    var date := Prop(enquiry, "date");
    if TruthyOpt(date) then monthOf(date.value) else None
  }

  /** How many of the enquiries are counted in month `m`. */
  function CountIn(enquiries: seq<Json>, monthOf: Json -> Option<MonthIndex>, m: MonthIndex): (r: nat)
    ensures r <= |enquiries|
  {
    if enquiries == [] then 0
    else
      var last := enquiries[|enquiries| - 1];
      CountIn(enquiries[..|enquiries| - 1], monthOf, m) + if CountedMonth(last, monthOf) == Some(m) then 1 else 0
  }

  lemma MonthsDistinct()
    ensures forall i, j :: 0 <= i < j < |Months| ==> Months[i] != Months[j]
  {
  }

  /** `generateMonthlyEnquiries`: every month's counter starts at 0, each
      dated enquiry adds one to its month, and the months are read out in
      calendar order. */
  method GenerateMonthlyEnquiries(enquiries: seq<Json>, monthOf: Json -> Option<MonthIndex>)
    returns (bars: seq<MonthBar>)
    ensures |bars| == 12
    ensures forall m: MonthIndex :: bars[m] == MonthBar(Months[m], CountIn(enquiries, monthOf, m))
  {
    MonthsDistinct();
    var monthCount: map<string, nat> := map[];
    for k := 0 to 12
      invariant forall j :: 0 <= j < k ==> Months[j] in monthCount && monthCount[Months[j]] == 0
    {
      monthCount := monthCount[Months[k] := 0];
    }
    for i := 0 to |enquiries|
      invariant forall m: MonthIndex :: Months[m] in monthCount
      invariant forall m: MonthIndex :: monthCount[Months[m]] == CountIn(enquiries[..i], monthOf, m)
    {
      assert enquiries[..i + 1][..i] == enquiries[..i];
      var month := CountedMonth(enquiries[i], monthOf);
      if month.Some? {
        var name := Months[month.value];
        monthCount := monthCount[name := monthCount[name] + 1];
      }
    }
    assert enquiries[..|enquiries|] == enquiries;
    bars := seq(12, m requires 0 <= m < 12 => MonthBar(Months[m], monthCount[Months[m]]));
  }

  // ---------------------------------------------------------------------
  // Totals

  /** The enquiries counted in some month. */
  function Dated(enquiries: seq<Json>, monthOf: Json -> Option<MonthIndex>): nat {
    if enquiries == [] then 0
    else
      var last := enquiries[|enquiries| - 1];
      Dated(enquiries[..|enquiries| - 1], monthOf) + if CountedMonth(last, monthOf).Some? then 1 else 0
  }

  /** The counts of the first `n` months. */
  function SumMonths(enquiries: seq<Json>, monthOf: Json -> Option<MonthIndex>, n: nat): nat
    requires n <= 12
  {
    if n == 0 then 0 else SumMonths(enquiries, monthOf, n - 1) + CountIn(enquiries, monthOf, n - 1)
  }

  /** The total of the month entries. */
  function BarTotal(bars: seq<MonthBar>): nat {
    if bars == [] then 0 else BarTotal(bars[..|bars| - 1]) + bars[|bars| - 1].enquiries
  }

  /** One more enquiry adds one to the first `n` months exactly when its
      month is among them. */
  lemma {:induction false} SumMonthsStep(enquiries: seq<Json>, e: Json, monthOf: Json -> Option<MonthIndex>, n: nat)
    requires n <= 12
    ensures SumMonths(enquiries + [e], monthOf, n) ==
      SumMonths(enquiries, monthOf, n) + if CountedMonth(e, monthOf).Some? && CountedMonth(e, monthOf).value < n then 1 else 0
  {
    if n > 0 {
      SumMonthsStep(enquiries, e, monthOf, n - 1);
      assert (enquiries + [e])[..|enquiries|] == enquiries;
    }
  }

  /** Every enquiry with a valid date is counted exactly once. */
  lemma {:induction false} MonthsAddUp(enquiries: seq<Json>, monthOf: Json -> Option<MonthIndex>)
    ensures SumMonths(enquiries, monthOf, 12) == Dated(enquiries, monthOf)
    decreases |enquiries|
  {
    if enquiries != [] {
      var init := enquiries[..|enquiries| - 1];
      var last := enquiries[|enquiries| - 1];
      MonthsAddUp(init, monthOf);
      assert init + [last] == enquiries;
      SumMonthsStep(init, last, monthOf, 12);
    } else {
      ZeroMonths(enquiries, monthOf, 12);
    }
  }

  lemma {:induction false} ZeroMonths(enquiries: seq<Json>, monthOf: Json -> Option<MonthIndex>, n: nat)
    requires enquiries == [] && n <= 12
    ensures SumMonths(enquiries, monthOf, n) == 0
  {
    if n > 0 {
      ZeroMonths(enquiries, monthOf, n - 1);
    }
  }

  lemma {:induction false} BarTotalPrefix(bars: seq<MonthBar>, enquiries: seq<Json>, monthOf: Json -> Option<MonthIndex>, n: nat)
    requires n <= |bars| == 12
    requires forall m: MonthIndex :: bars[m].enquiries == CountIn(enquiries, monthOf, m)
    ensures BarTotal(bars[..n]) == SumMonths(enquiries, monthOf, n)
  {
    if n > 0 {
      BarTotalPrefix(bars, enquiries, monthOf, n - 1);
      assert bars[..n][..n - 1] == bars[..n - 1];
    }
  }

  /** The twelve bars together count every enquiry with a valid date, and
      no other. */
  lemma EntriesCountDatedEnquiries(enquiries: seq<Json>, monthOf: Json -> Option<MonthIndex>, bars: seq<MonthBar>)
    requires |bars| == 12
    requires forall m: MonthIndex :: bars[m] == MonthBar(Months[m], CountIn(enquiries, monthOf, m))
    ensures BarTotal(bars) == Dated(enquiries, monthOf)
  {
    BarTotalPrefix(bars, enquiries, monthOf, 12);
    assert bars[..12] == bars;
    MonthsAddUp(enquiries, monthOf);
  }

  /** With no enquiries every month shows 0. */
  lemma NoEnquiriesNoCounts(monthOf: Json -> Option<MonthIndex>, m: MonthIndex)
    ensures CountIn([], monthOf, m) == 0
  {
  }

  /** An enquiry without a truthy date adds to no month. */
  lemma UndatedIsSkipped(enquiries: seq<Json>, e: Json, monthOf: Json -> Option<MonthIndex>, m: MonthIndex)
    requires !TruthyOpt(Prop(e, "date"))
    ensures CountIn(enquiries + [e], monthOf, m) == CountIn(enquiries, monthOf, m)
  {
    assert (enquiries + [e])[..|enquiries|] == enquiries;
  }
}
