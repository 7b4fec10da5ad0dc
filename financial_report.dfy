/**
 * The `financial_report` view: from the `CustomerCourse` rows whose payment
 * date lies in `[start_date, end_date]` it computes the total of course
 * prices over paid rows, the percentage of rows that are paid, revenue per
 * language, revenue per calendar month and one detail row per payment.
 *
 * The ORM queries become explicit functions over a sequence of rows:
 * `filter` is a filter function, `aggregate(Sum(...))` a recursive sum,
 * `TruncMonth(...).values('month').annotate(Sum(...)).order_by('month')` an
 * ordered group-by. Money is an integer number of cents (the price is a
 * decimal with two places), so no rounding happens anywhere in the model.
 */
module FinancialReport {
  import opened Wrappers
  import opened Calendar

  // ----- Records -----

  type LanguageId = nat

  /** A row of the `Language` table; `id` is its primary key. */
  datatype Language = Language(id: LanguageId, name: string)

  /** A row of the `Course` table with its language resolved; `price` in cents. */
  datatype Course = Course(name: string, price: int, language: Language)

  /** A row of the `CustomerCourse` table with its course resolved. */
  datatype CustomerCourse = CustomerCourse(paymentStatus: bool, paymentDate: Option<CalendarDate>, course: Course)

  // ----- Queries -----

  /**
   * `payment_date__range=[start, end]`: SQL `BETWEEN`, inclusive at both ends.
   * A NULL payment date never matches, and neither does anything when a bound
   * is missing (`None` becomes SQL NULL, and a comparison with NULL is not true).
   */
  predicate InRange(c: CustomerCourse, start: Option<CalendarDate>, end: Option<CalendarDate>) {
    && c.paymentDate.Some? && start.Some? && end.Some?
    && DateLe(start.value, c.paymentDate.value) && DateLe(c.paymentDate.value, end.value)
  }

  /** `CustomerCourse.objects.filter(payment_date__range=[start, end])`, in table order. */
  function FilterRange(cs: seq<CustomerCourse>, start: Option<CalendarDate>, end: Option<CalendarDate>): (w: seq<CustomerCourse>)
    ensures |w| <= |cs|
    ensures forall c {:trigger c in w} :: c in w <==> c in cs && InRange(c, start, end)
  {
    if cs == [] then []
    else (if InRange(cs[0], start, end) then [cs[0]] else []) + FilterRange(cs[1..], start, end)
  }

  /** The filter works row by row: filtering a concatenation filters each part, keeping the order. */
  lemma {:induction false} FilterRangeAppend(a: seq<CustomerCourse>, b: seq<CustomerCourse>, start: Option<CalendarDate>, end: Option<CalendarDate>)
    ensures FilterRange(a + b, start, end) == FilterRange(a, start, end) + FilterRange(b, start, end)
  {
    if a == [] {
      assert a + b == b;
    } else {
      var ab := a + b;
      assert ab[0] == a[0] && ab[1..] == a[1..] + b;
      FilterRangeAppend(a[1..], b, start, end);
      var x, y := FilterRange(a[1..], start, end), FilterRange(b, start, end);
      if InRange(a[0], start, end) {
        assert FilterRange(ab, start, end) == [a[0]] + (x + y);
        assert [a[0]] + (x + y) == ([a[0]] + x) + y;
      } else {
        assert FilterRange(ab, start, end) == [] + (x + y);
        assert FilterRange(a, start, end) == [] + x;
      }
    }
  }

  /** Each row is kept as many times as it occurs in the table when it is in range, and dropped otherwise. */
  lemma {:induction false} FilterRangeCount(cs: seq<CustomerCourse>, start: Option<CalendarDate>, end: Option<CalendarDate>, c: CustomerCourse)
    ensures multiset(FilterRange(cs, start, end))[c] == if InRange(c, start, end) then multiset(cs)[c] else 0
  {
    if cs != [] {
      assert cs == [cs[0]] + cs[1..];
      FilterRangeCount(cs[1..], start, end, c);
    }
  }

  /** Without both bounds the window is empty, and so is every part of the report. */
  lemma {:induction false} MissingBoundEmptyWindow(cs: seq<CustomerCourse>, start: Option<CalendarDate>, end: Option<CalendarDate>)
    requires start.None? || end.None?
    ensures FilterRange(cs, start, end) == []
  {
    if cs != [] {
      MissingBoundEmptyWindow(cs[1..], start, end);
    }
  }

  /** `filter(payment_status=True)`. */
  function Paid(cs: seq<CustomerCourse>): (r: seq<CustomerCourse>)
    ensures |r| <= |cs|
    ensures forall c :: c in r <==> c in cs && c.paymentStatus
  {
    if cs == [] then []
    else (if cs[0].paymentStatus then [cs[0]] else []) + Paid(cs[1..])
  }

  /** Each paid row is kept as many times as it occurs; unpaid rows are dropped. */
  lemma {:induction false} PaidCount(cs: seq<CustomerCourse>, c: CustomerCourse)
    ensures multiset(Paid(cs))[c] == if c.paymentStatus then multiset(cs)[c] else 0
  {
    if cs != [] {
      assert cs == [cs[0]] + cs[1..];
      PaidCount(cs[1..], c);
    }
  }

  lemma {:induction false} PaidAppend(a: seq<CustomerCourse>, b: seq<CustomerCourse>)
    ensures Paid(a + b) == Paid(a) + Paid(b)
  {
    if a != [] {
      assert (a + b)[0] == a[0] && (a + b)[1..] == a[1..] + b;
      PaidAppend(a[1..], b);
    } else {
      assert a + b == b;
    }
  }

  /** `filter(course__language=language)`: rows whose course has that language's key. */
  function OfLanguage(cs: seq<CustomerCourse>, id: LanguageId): (r: seq<CustomerCourse>)
    ensures |r| <= |cs|
    ensures forall c :: c in r <==> c in cs && c.course.language.id == id
  {
    if cs == [] then []
    else (if cs[0].course.language.id == id then [cs[0]] else []) + OfLanguage(cs[1..], id)
  }

  /** Each row of the language is kept as many times as it occurs; other rows are dropped. */
  lemma {:induction false} OfLanguageCount(cs: seq<CustomerCourse>, id: LanguageId, c: CustomerCourse)
    ensures multiset(OfLanguage(cs, id))[c] == if c.course.language.id == id then multiset(cs)[c] else 0
  {
    if cs != [] {
      assert cs == [cs[0]] + cs[1..];
      OfLanguageCount(cs[1..], id, c);
    }
  }

  lemma {:induction false} OfLanguageAppend(a: seq<CustomerCourse>, b: seq<CustomerCourse>, id: LanguageId)
    ensures OfLanguage(a + b, id) == OfLanguage(a, id) + OfLanguage(b, id)
  {
    if a != [] {
      assert (a + b)[0] == a[0] && (a + b)[1..] == a[1..] + b;
      OfLanguageAppend(a[1..], b, id);
    } else {
      assert a + b == b;
    }
  }

  /** `aggregate(total=Sum('course__price'))['total'] or 0`: an empty sum is 0. */
  function PriceSum(cs: seq<CustomerCourse>): int {
    if cs == [] then 0 else cs[0].course.price + PriceSum(cs[1..])
  }

  lemma {:induction false} PriceSumNonnegative(cs: seq<CustomerCourse>)
    ensures (forall c :: c in cs ==> c.course.price >= 0) ==> PriceSum(cs) >= 0
  {
    if cs != [] && forall c :: c in cs ==> c.course.price >= 0 {
      assert cs[0] in cs;
      forall c | c in cs[1..] ensures c.course.price >= 0 {
        assert c in cs;
      }
      PriceSumNonnegative(cs[1..]);
    }
  }

  /** `total_payments`: the sum of course prices over the paid rows. */
  function TotalPayments(window: seq<CustomerCourse>): (total: int)
    ensures (forall c :: c in window ==> c.course.price >= 0) ==> total >= 0
  {
    PriceSumNonnegative(Paid(window));
    PriceSum(Paid(window))
  }

  /** `paid_percentage`, as an exact rational (before the float conversion and `round`). */
  function PaidPercentage(window: seq<CustomerCourse>): (p: real)
    ensures 0.0 <= p <= 100.0
    ensures p == 0.0 <==> |Paid(window)| == 0
    ensures p == 100.0 <==> |window| > 0 && |Paid(window)| == |window|
  {
    var total := |window|;
    var paid := |Paid(window)|;
    if total > 0 then
      PercentageBounds(paid, total);
      (paid as real) / (total as real) * 100.0
    else 0.0
  }

  lemma PercentageBounds(paid: nat, total: nat)
    requires 0 < total && paid <= total
    ensures 0.0 <= (paid as real) / (total as real) * 100.0 <= 100.0
    ensures (paid as real) / (total as real) * 100.0 == 0.0 <==> paid == 0
    ensures (paid as real) / (total as real) * 100.0 == 100.0 <==> paid == total
  {
    var q := (paid as real) / (total as real);
    assert q * (total as real) == paid as real;
    if paid == total {
      assert q == 1.0;
    }
    if q * 100.0 == 100.0 {
      assert q == 1.0;
      assert paid as real == total as real;
    }
  }

  // ----- Sum lemmas -----

  /** Prepending one row adds its price to the total exactly when it is paid. */
  lemma TotalPaymentsCons(c: CustomerCourse, w: seq<CustomerCourse>)
    ensures TotalPayments([c] + w) == (if c.paymentStatus then c.course.price else 0) + TotalPayments(w)
  {
    var cw := [c] + w;
    assert cw[0] == c && cw[1..] == w;
    var paid := Paid(cw);
    if c.paymentStatus {
      assert paid == [c] + Paid(w);
      assert paid[0] == c && paid[1..] == Paid(w);
    } else {
      assert paid == Paid(w);
    }
  }

  /** `total_payments` is 0 when no row in the window is paid. */
  lemma {:induction false} TotalPaymentsNoPaid(window: seq<CustomerCourse>)
    requires forall c :: c in window ==> !c.paymentStatus
    ensures TotalPayments(window) == 0
  {
    assert Paid(window) == [] by {
      if Paid(window) != [] {
        assert Paid(window)[0] in Paid(window);
      }
    }
  }

  // ----- Revenue per language -----

  /** One entry of `language_stats`; `amount` in cents. */
  datatype LanguageStat = LanguageStat(language: string, amount: int)

  /** The revenue of one language: the prices of the paid rows whose course has that language. */
  function LanguageRevenue(window: seq<CustomerCourse>, id: LanguageId): (amount: int)
    ensures (forall c :: c in window ==> c.course.price >= 0) ==> amount >= 0
  {
    if window == [] then 0
    else
      assert forall c :: c in window[1..] ==> c in window;
      (if window[0].paymentStatus && window[0].course.language.id == id then window[0].course.price else 0)
      + LanguageRevenue(window[1..], id)
  }

  /** With non-negative prices, no language earns more than `total_payments`. */
  lemma {:induction false} LanguageRevenueAtMostTotal(window: seq<CustomerCourse>, id: LanguageId)
    requires forall c :: c in window ==> c.course.price >= 0
    ensures LanguageRevenue(window, id) <= TotalPayments(window)
  {
    if window != [] {
      assert [window[0]] + window[1..] == window;
      TotalPaymentsCons(window[0], window[1..]);
      assert forall c :: c in window[1..] ==> c in window;
      assert window[0] in window;
      LanguageRevenueAtMostTotal(window[1..], id);
    }
  }

  /** The revenue of a language is the query `filter(course__language=..., payment_status=True)` summed. */
  lemma {:induction false} LanguageRevenueIsQuery(window: seq<CustomerCourse>, id: LanguageId)
    ensures LanguageRevenue(window, id) == PriceSum(Paid(OfLanguage(window, id)))
  {
    if window != [] {
      var c := window[0];
      var rest := window[1..];
      assert window == [c] + rest;
      LanguageRevenueIsQuery(rest, id);
      if c.course.language.id == id {
        assert OfLanguage(window, id) == [c] + OfLanguage(rest, id);
        TotalPaymentsCons(c, OfLanguage(rest, id));
      } else {
        assert OfLanguage(window, id) == OfLanguage(rest, id);
      }
    }
  }

  /** `language_stats` after visiting `languages` in order: an entry per language with revenue > 0. */
  function LanguageStatsOf(window: seq<CustomerCourse>, languages: seq<Language>): (stats: seq<LanguageStat>)
    ensures |stats| <= |languages|
  {
    if languages == [] then []
    else
      var prefix := LanguageStatsOf(window, languages[..|languages| - 1]);
      var l := languages[|languages| - 1];
      var amount := LanguageRevenue(window, l.id);
      if amount > 0 then prefix + [LanguageStat(l.name, amount)] else prefix
  }

  /** With no payment in the window, no language has revenue, so `language_stats` is empty. */
  lemma {:induction false} LanguageStatsEmptyWindow(languages: seq<Language>)
    ensures LanguageStatsOf([], languages) == []
  {
    if languages != [] {
      LanguageStatsEmptyWindow(languages[..|languages| - 1]);
    }
  }

  /** The loop over `Language.objects.all()` that builds `language_stats`. */
  method CollectLanguageStats(window: seq<CustomerCourse>, languages: seq<Language>) returns (stats: seq<LanguageStat>)
    ensures stats == LanguageStatsOf(window, languages)
  {
    stats := [];
    var i := 0;
    while i < |languages|
      invariant 0 <= i <= |languages|
      invariant stats == LanguageStatsOf(window, languages[..i])
    {
      var language := languages[i];
      var amount := PriceSum(Paid(OfLanguage(window, language.id)));
      LanguageRevenueIsQuery(window, language.id);
      if amount > 0 {
        stats := stats + [LanguageStat(language.name, amount)];
      }
      assert languages[..i + 1][..i] == languages[..i];
      i := i + 1;
    }
    assert languages[..i] == languages;
  }

  /** Every entry names a language of the table and carries that language's revenue, which is positive. */
  lemma {:induction false} LanguageStatsSound(window: seq<CustomerCourse>, languages: seq<Language>, i: int)
    requires 0 <= i < |LanguageStatsOf(window, languages)|
    ensures LanguageStatsOf(window, languages)[i].amount > 0
    ensures exists k :: (0 <= k < |languages|
      && languages[k].name == LanguageStatsOf(window, languages)[i].language
      && LanguageRevenue(window, languages[k].id) == LanguageStatsOf(window, languages)[i].amount)
  {
    var n := |languages|;
    var prefix := languages[..n - 1];
    var stats := LanguageStatsOf(window, languages);
    if i < |LanguageStatsOf(window, prefix)| {
      LanguageStatsSound(window, prefix, i);
      var k :| 0 <= k < |prefix| && prefix[k].name == LanguageStatsOf(window, prefix)[i].language
        && LanguageRevenue(window, prefix[k].id) == LanguageStatsOf(window, prefix)[i].amount;
      assert languages[k] == prefix[k];
    } else {
      assert languages[n - 1].name == stats[i].language;
    }
  }

  /** Every language whose revenue is positive has its entry. */
  lemma {:induction false} LanguageStatsComplete(window: seq<CustomerCourse>, languages: seq<Language>, k: int)
    requires 0 <= k < |languages|
    requires LanguageRevenue(window, languages[k].id) > 0
    ensures LanguageStat(languages[k].name, LanguageRevenue(window, languages[k].id)) in LanguageStatsOf(window, languages)
  {
    var n := |languages|;
    var prefix := languages[..n - 1];
    var before := LanguageStatsOf(window, prefix);
    var last := languages[n - 1];
    var entry := LanguageStat(languages[k].name, LanguageRevenue(window, languages[k].id));
    var lastAmount := LanguageRevenue(window, last.id);
    assert LanguageStatsOf(window, languages)
      == if lastAmount > 0 then before + [LanguageStat(last.name, lastAmount)] else before;
    if k < n - 1 {
      assert prefix[k] == languages[k];
      LanguageStatsComplete(window, prefix, k);
      var i :| 0 <= i < |before| && before[i] == entry;
      if lastAmount > 0 {
        var stats := before + [LanguageStat(last.name, lastAmount)];
        assert stats[i] == entry;
      }
    } else {
      var stats := before + [entry];
      assert stats[|before|] == entry;
    }
  }

  /** Entries follow the enumeration order of `languages`. */
  lemma {:induction false} LanguageStatsOrdered(window: seq<CustomerCourse>, languages: seq<Language>, i: int, j: int)
    requires 0 <= i < j < |LanguageStatsOf(window, languages)|
    ensures exists p, q :: (0 <= p < q < |languages|
      && languages[p].name == LanguageStatsOf(window, languages)[i].language
      && languages[q].name == LanguageStatsOf(window, languages)[j].language)
  {
    var n := |languages|;
    var prefix := languages[..n - 1];
    var last := languages[n - 1];
    var stats := LanguageStatsOf(window, languages);
    var before := LanguageStatsOf(window, prefix);
    assert stats == before || stats == before + [LanguageStat(last.name, LanguageRevenue(window, last.id))];
    var p, q;
    if j < |before| {
      assert stats[i] == before[i] && stats[j] == before[j];
      LanguageStatsOrdered(window, prefix, i, j);
      p, q :| 0 <= p < q < |prefix| && prefix[p].name == before[i].language && prefix[q].name == before[j].language;
    } else {
      assert stats == before + [LanguageStat(last.name, LanguageRevenue(window, last.id))];
      assert stats[i] == before[i] && stats[j].language == last.name;
      LanguageStatsSound(window, prefix, i);
      p :| 0 <= p < |prefix| && prefix[p].name == before[i].language
        && LanguageRevenue(window, prefix[p].id) == before[i].amount;
      q := n - 1;
    }
    assert languages[p].name == stats[i].language && languages[q].name == stats[j].language;
  }

  /**
   * For each entry of `language_stats`, the position in `languages` of the
   * language it was made for. The positions strictly increase, so the entries
   * follow the enumeration order of the table even when two languages share a
   * name.
   */
  function LanguageSources(window: seq<CustomerCourse>, languages: seq<Language>): (sources: seq<int>)
    ensures |sources| == |LanguageStatsOf(window, languages)|
    ensures forall i :: 0 <= i < |sources| ==>
      && 0 <= sources[i] < |languages|
      && LanguageStatsOf(window, languages)[i]
         == LanguageStat(languages[sources[i]].name, LanguageRevenue(window, languages[sources[i]].id))
    ensures forall i, j :: 0 <= i < j < |sources| ==> sources[i] < sources[j]
  {
    if languages == [] then []
    else
      var n := |languages|;
      var prefix := languages[..n - 1];
      var before := LanguageSources(window, prefix);
      assert forall k :: 0 <= k < n - 1 ==> prefix[k] == languages[k];
      if LanguageRevenue(window, languages[n - 1].id) > 0 then before + [n - 1] else before
  }

  predicate DistinctNames(languages: seq<Language>) {
    forall p, q :: 0 <= p < q < |languages| ==> languages[p].name != languages[q].name
  }

  predicate DistinctIds(languages: seq<Language>) {
    forall p, q :: 0 <= p < q < |languages| ==> languages[p].id != languages[q].id
  }

  /** With unique language names (`unique=True`), no language has two entries. */
  lemma LanguageStatsUnique(window: seq<CustomerCourse>, languages: seq<Language>)
    requires DistinctNames(languages)
    ensures var stats := LanguageStatsOf(window, languages);
      forall i, j :: 0 <= i < j < |stats| ==> stats[i].language != stats[j].language
  {
    var stats := LanguageStatsOf(window, languages);
    forall i, j | 0 <= i < j < |stats|
      ensures stats[i].language != stats[j].language
    {
      LanguageStatsOrdered(window, languages, i, j);
    }
  }

  function SumLanguageAmounts(stats: seq<LanguageStat>): int {
    if stats == [] then 0 else SumLanguageAmounts(stats[..|stats| - 1]) + stats[|stats| - 1].amount
  }

  /** The revenues of all the languages of the table, added up. */
  function SumRevenues(window: seq<CustomerCourse>, languages: seq<Language>): int {
    if languages == [] then 0
    else SumRevenues(window, languages[..|languages| - 1]) + LanguageRevenue(window, languages[|languages| - 1].id)
  }

  /** With non-negative prices, dropping the languages whose revenue is not positive drops nothing from the sum. */
  lemma {:induction false} LanguageStatsSumRevenues(window: seq<CustomerCourse>, languages: seq<Language>)
    requires forall c :: c in window ==> c.course.price >= 0
    ensures SumLanguageAmounts(LanguageStatsOf(window, languages)) == SumRevenues(window, languages)
  {
    if languages != [] {
      var prefix := languages[..|languages| - 1];
      var l := languages[|languages| - 1];
      LanguageStatsSumRevenues(window, prefix);
      var prefixStats := LanguageStatsOf(window, prefix);
      if LanguageRevenue(window, l.id) > 0 {
        var stats := prefixStats + [LanguageStat(l.name, LanguageRevenue(window, l.id))];
        assert stats[..|stats| - 1] == prefixStats;
      }
    }
  }

  /** The part of one row's price that the languages of `languages` claim. */
  function Claimed(c: CustomerCourse, languages: seq<Language>): int {
    if languages == [] then 0
    else
      Claimed(c, languages[..|languages| - 1])
      + (if c.paymentStatus && c.course.language.id == languages[|languages| - 1].id then c.course.price else 0)
  }

  lemma {:induction false} ClaimedNone(c: CustomerCourse, languages: seq<Language>)
    requires forall l :: l in languages ==> l.id != c.course.language.id
    ensures Claimed(c, languages) == 0
  {
    if languages != [] {
      var prefix := languages[..|languages| - 1];
      forall l | l in prefix ensures l.id != c.course.language.id {
        assert l in languages;
      }
      ClaimedNone(c, prefix);
    }
  }

  /** A row whose language occurs exactly once in the table is claimed exactly once. */
  lemma {:induction false} ClaimedOnce(c: CustomerCourse, languages: seq<Language>)
    requires DistinctIds(languages)
    requires c.course.language in languages
    ensures Claimed(c, languages) == (if c.paymentStatus then c.course.price else 0)
  {
    var n := |languages|;
    var prefix := languages[..n - 1];
    var l := languages[n - 1];
    if l.id == c.course.language.id {
      forall l' | l' in prefix ensures l'.id != c.course.language.id {
        var p :| 0 <= p < |prefix| && prefix[p] == l';
        assert languages[p] == l';
      }
      ClaimedNone(c, prefix);
    } else {
      assert c.course.language != l;
      var p :| 0 <= p < n && languages[p] == c.course.language;
      assert prefix[p] == c.course.language;
      ClaimedOnce(c, prefix);
    }
  }

  lemma {:induction false} SumRevenuesCons(c: CustomerCourse, w: seq<CustomerCourse>, languages: seq<Language>)
    ensures SumRevenues([c] + w, languages) == Claimed(c, languages) + SumRevenues(w, languages)
  {
    if languages != [] {
      var prefix := languages[..|languages| - 1];
      var l := languages[|languages| - 1];
      SumRevenuesCons(c, w, prefix);
      var cw := [c] + w;
      assert cw[0] == c && cw[1..] == w;
    }
  }

  /** Every course has exactly one language, so the revenues of all languages add up to `total_payments`. */
  lemma {:induction false} SumRevenuesTotal(window: seq<CustomerCourse>, languages: seq<Language>)
    requires DistinctIds(languages)
    requires forall c :: c in window ==> c.course.language in languages
    ensures SumRevenues(window, languages) == TotalPayments(window)
  {
    if window == [] {
      SumRevenuesEmpty(languages);
    } else {
      var c := window[0];
      var rest := window[1..];
      assert window == [c] + rest;
      SumRevenuesCons(c, rest, languages);
      ClaimedOnce(c, languages);
      forall c' | c' in rest ensures c'.course.language in languages {
        assert c' in window;
      }
      SumRevenuesTotal(rest, languages);
      TotalPaymentsCons(c, rest);
    }
  }

  lemma {:induction false} SumRevenuesEmpty(languages: seq<Language>)
    ensures SumRevenues([], languages) == 0
  {
    if languages != [] {
      SumRevenuesEmpty(languages[..|languages| - 1]);
    }
  }

  /**
   * When prices are non-negative and every course's language is a row of the
   * `Language` table, the `language_stats` amounts add up to `total_payments`.
   */
  lemma LanguageStatsSumToTotal(window: seq<CustomerCourse>, languages: seq<Language>)
    requires DistinctIds(languages)
    requires forall c :: c in window ==> c.course.language in languages && c.course.price >= 0
    ensures SumLanguageAmounts(LanguageStatsOf(window, languages)) == TotalPayments(window)
  {
    LanguageStatsSumRevenues(window, languages);
    SumRevenuesTotal(window, languages);
  }

  // ----- Revenue per month -----

  /** One entry of `monthly_stats`; `amount` in cents. */
  datatype MonthStat = MonthStat(month: Month, amount: int)

  predicate StrictlyAscending(stats: seq<MonthStat>) {
    forall i, j :: 0 <= i < j < |stats| ==> MonthLt(stats[i].month, stats[j].month)
  }

  function Months(stats: seq<MonthStat>): set<Month> {
    set i | 0 <= i < |stats| :: stats[i].month
  }

  /** Whether a paid row was paid in month `m`. */
  predicate PaidIn(c: CustomerCourse, m: Month) {
    c.paymentStatus && c.paymentDate.Some? && MonthOf(c.paymentDate.value) == m
  }

  /** Rows paid in month `m`. */
  function PaidInMonth(cs: seq<CustomerCourse>, m: Month): (r: seq<CustomerCourse>)
    ensures forall c :: c in r <==> c in cs && PaidIn(c, m)
  {
    if cs == [] then []
    else (if PaidIn(cs[0], m) then [cs[0]] else []) + PaidInMonth(cs[1..], m)
  }

  /** The revenue of one calendar month. */
  function MonthRevenue(window: seq<CustomerCourse>, m: Month): int {
    PriceSum(PaidInMonth(window, m))
  }

  /** One row's price added to the group of its month, keeping the groups ordered by month. */
  function AddToMonth(stats: seq<MonthStat>, m: Month, amount: int): seq<MonthStat> {
    if stats == [] then [MonthStat(m, amount)]
    else if stats[0].month == m then [MonthStat(m, stats[0].amount + amount)] + stats[1..]
    else if MonthLt(m, stats[0].month) then [MonthStat(m, amount)] + stats
    else [stats[0]] + AddToMonth(stats[1..], m, amount)
  }

  /** Adding to a month adds at most one entry. */
  lemma {:induction false} AddToMonthLength(stats: seq<MonthStat>, m: Month, amount: int)
    ensures |stats| <= |AddToMonth(stats, m, amount)| <= |stats| + 1
  {
    if stats != [] && stats[0].month != m && !MonthLt(m, stats[0].month) {
      AddToMonthLength(stats[1..], m, amount);
    }
  }

  /**
   * `monthly_stats`: the paid rows grouped by `TruncMonth('payment_date')`,
   * each group's prices summed, ordered by month.
   */
  function MonthlyStatsOf(window: seq<CustomerCourse>): (stats: seq<MonthStat>)
    ensures |stats| <= |Paid(window)|
  {
    if window == [] then []
    else
      var rest := MonthlyStatsOf(window[1..]);
      var c := window[0];
      if c.paymentStatus && c.paymentDate.Some? then
        AddToMonthLength(rest, MonthOf(c.paymentDate.value), c.course.price);
        AddToMonth(rest, MonthOf(c.paymentDate.value), c.course.price)
      else rest
  }

  /** The total of the entries for month `m`. */
  function AmountIn(stats: seq<MonthStat>, m: Month): int {
    if stats == [] then 0
    else (if stats[0].month == m then stats[0].amount else 0) + AmountIn(stats[1..], m)
  }

  function SumMonthAmounts(stats: seq<MonthStat>): int {
    if stats == [] then 0 else stats[0].amount + SumMonthAmounts(stats[1..])
  }

  lemma {:induction false} AddToMonthMonths(stats: seq<MonthStat>, m: Month, amount: int)
    ensures Months(AddToMonth(stats, m, amount)) == Months(stats) + {m}
  {
    var r := AddToMonth(stats, m, amount);
    if stats == [] {
      assert r[0].month == m;
      assert Months(r) == {m};
    } else if stats[0].month == m {
      assert r[1..] == stats[1..];
      forall x | x in Months(stats) ensures x in Months(r) {
        var i :| 0 <= i < |stats| && stats[i].month == x;
        assert r[i].month == x;
      }
    } else if MonthLt(m, stats[0].month) {
      assert r[0].month == m;
      forall x | x in Months(stats) ensures x in Months(r) {
        var i :| 0 <= i < |stats| && stats[i].month == x;
        assert r[i + 1] == stats[i];
      }
      forall x | x in Months(r) ensures x in Months(stats) + {m} {
        var i :| 0 <= i < |r| && r[i].month == x;
        if i > 0 {
          assert r[i] == stats[i - 1];
        }
      }
    } else {
      var tail := AddToMonth(stats[1..], m, amount);
      AddToMonthMonths(stats[1..], m, amount);
      assert r == [stats[0]] + tail;
      forall x | x in Months(stats) + {m} ensures x in Months(r) {
        if x == stats[0].month {
          assert r[0].month == x;
        } else {
          assert x in Months(tail) by {
            if x != m {
              var i :| 0 <= i < |stats| && stats[i].month == x;
              assert stats[1..][i - 1].month == x;
            }
          }
          var i :| 0 <= i < |tail| && tail[i].month == x;
          assert r[i + 1].month == x;
        }
      }
      forall x | x in Months(r) ensures x in Months(stats) + {m} {
        var i :| 0 <= i < |r| && r[i].month == x;
        if i > 0 {
          assert tail[i - 1].month == x;
          assert x in Months(tail);
          if x != m {
            var j :| 0 <= j < |stats[1..]| && stats[1..][j].month == x;
            assert stats[j + 1].month == x;
          }
        }
      }
    }
  }

  lemma {:induction false} AddToMonthAscending(stats: seq<MonthStat>, m: Month, amount: int)
    requires StrictlyAscending(stats)
    ensures StrictlyAscending(AddToMonth(stats, m, amount))
  {
    if stats != [] && stats[0].month != m && !MonthLt(m, stats[0].month) {
      var tail := AddToMonth(stats[1..], m, amount);
      AddToMonthAscending(stats[1..], m, amount);
      AddToMonthMonths(stats[1..], m, amount);
      var r := [stats[0]] + tail;
      forall j | 0 < j < |r| ensures MonthLt(r[0].month, r[j].month) {
        assert r[j].month in Months(tail);
        if r[j].month != m {
          var k :| 0 <= k < |stats[1..]| && stats[1..][k].month == r[j].month;
          assert stats[k + 1].month == r[j].month;
        }
      }
    }
  }

  lemma {:induction false} AddToMonthAmount(stats: seq<MonthStat>, m: Month, amount: int, m': Month)
    ensures AmountIn(AddToMonth(stats, m, amount), m') == AmountIn(stats, m') + (if m' == m then amount else 0)
  {
    var r := AddToMonth(stats, m, amount);
    if stats == [] {
      assert r[1..] == [];
    } else if stats[0].month == m {
      assert r[1..] == stats[1..];
    } else if MonthLt(m, stats[0].month) {
      assert r[1..] == stats;
    } else {
      AddToMonthAmount(stats[1..], m, amount, m');
      assert r[1..] == AddToMonth(stats[1..], m, amount);
    }
  }

  lemma {:induction false} AddToMonthSum(stats: seq<MonthStat>, m: Month, amount: int)
    ensures SumMonthAmounts(AddToMonth(stats, m, amount)) == SumMonthAmounts(stats) + amount
  {
    var r := AddToMonth(stats, m, amount);
    if stats == [] {
      assert r[1..] == [];
    } else if stats[0].month == m {
      assert r[1..] == stats[1..];
    } else if MonthLt(m, stats[0].month) {
      assert r[1..] == stats;
    } else {
      AddToMonthSum(stats[1..], m, amount);
      assert r[1..] == AddToMonth(stats[1..], m, amount);
    }
  }

  /** In an ordered list each month has one entry, so its amount is the month's total. */
  lemma {:induction false} AmountInAscending(stats: seq<MonthStat>, i: int)
    requires StrictlyAscending(stats)
    requires 0 <= i < |stats|
    ensures AmountIn(stats, stats[i].month) == stats[i].amount
  {
    var m := stats[i].month;
    if i == 0 {
      AmountInAbsent(stats[1..], m);
    } else {
      assert stats[0].month != m by { assert MonthLt(stats[0].month, stats[i].month); }
      assert stats[1..][i - 1] == stats[i];
      AmountInAscending(stats[1..], i - 1);
    }
  }

  lemma {:induction false} AmountInAbsent(stats: seq<MonthStat>, m: Month)
    requires forall i :: 0 <= i < |stats| ==> MonthLt(m, stats[i].month)
    ensures AmountIn(stats, m) == 0
  {
    if stats != [] {
      assert MonthLt(m, stats[0].month);
      AmountInAbsent(stats[1..], m);
    }
  }

  lemma {:induction false} MonthlyStatsAscending(window: seq<CustomerCourse>)
    ensures StrictlyAscending(MonthlyStatsOf(window))
  {
    if window != [] {
      MonthlyStatsAscending(window[1..]);
      var c := window[0];
      if c.paymentStatus && c.paymentDate.Some? {
        AddToMonthAscending(MonthlyStatsOf(window[1..]), MonthOf(c.paymentDate.value), c.course.price);
      }
    }
  }

  /** A month has an entry exactly when some paid row falls in it. */
  lemma {:induction false} MonthlyStatsMonths(window: seq<CustomerCourse>, m: Month)
    ensures m in Months(MonthlyStatsOf(window)) <==> exists c :: c in window && PaidIn(c, m)
  {
    if window != [] {
      var c := window[0];
      var rest := window[1..];
      MonthlyStatsMonths(rest, m);
      if c.paymentStatus && c.paymentDate.Some? {
        AddToMonthMonths(MonthlyStatsOf(rest), MonthOf(c.paymentDate.value), c.course.price);
      }
      assert c in window;
      forall c' | c' in rest ensures c' in window {
        var k :| 0 <= k < |rest| && rest[k] == c';
        assert window[k + 1] == c';
      }
      if exists c' :: c' in window && PaidIn(c', m) {
        var c' :| c' in window && PaidIn(c', m);
        if c' != c {
          var k :| 0 <= k < |window| && window[k] == c';
          assert rest[k - 1] == c';
        }
      }
    }
  }

  lemma {:induction false} MonthlyStatsAmountIn(window: seq<CustomerCourse>, m: Month)
    ensures AmountIn(MonthlyStatsOf(window), m) == MonthRevenue(window, m)
  {
    if window != [] {
      var c := window[0];
      var rest := window[1..];
      MonthlyStatsAmountIn(rest, m);
      if c.paymentStatus && c.paymentDate.Some? {
        AddToMonthAmount(MonthlyStatsOf(rest), MonthOf(c.paymentDate.value), c.course.price, m);
      }
      var part := PaidInMonth(window, m);
      if PaidIn(c, m) {
        assert part == [c] + PaidInMonth(rest, m);
        assert part[0] == c && part[1..] == PaidInMonth(rest, m);
      } else {
        assert part == PaidInMonth(rest, m);
      }
    }
  }

  /** Each entry's amount is the sum of the prices of the paid rows of its month. */
  lemma MonthlyStatsAmounts(window: seq<CustomerCourse>, i: int)
    requires 0 <= i < |MonthlyStatsOf(window)|
    ensures MonthlyStatsOf(window)[i].amount == MonthRevenue(window, MonthlyStatsOf(window)[i].month)
  {
    MonthlyStatsAscending(window);
    AmountInAscending(MonthlyStatsOf(window), i);
    MonthlyStatsAmountIn(window, MonthlyStatsOf(window)[i].month);
  }

  /** Every paid row with a payment date lands in exactly one month, so the months add up to `total_payments`. */
  lemma {:induction false} MonthlyStatsSumToTotal(window: seq<CustomerCourse>)
    requires forall c :: c in window ==> c.paymentDate.Some?
    ensures SumMonthAmounts(MonthlyStatsOf(window)) == TotalPayments(window)
  {
    if window != [] {
      var c := window[0];
      var rest := window[1..];
      assert window == [c] + rest;
      MonthlyStatsSumToTotal(rest);
      TotalPaymentsCons(c, rest);
      if c.paymentStatus {
        AddToMonthSum(MonthlyStatsOf(rest), MonthOf(c.paymentDate.value), c.course.price);
      }
    }
  }

  // ----- Detail rows -----

  /** One entry of `detailed_data`; `date` is `None` when the row has no payment date. */
  datatype DetailRow = DetailRow(date: Option<string>, course: string, language: string, amount: int, status: bool)

  /**
   * The detail row printed for one payment: its date as `dd.mm.yyyy` (or
   * `None`), the course name, the language name, the course price and the
   * payment status.
   */
  predicate IsDetailRowOf(row: DetailRow, c: CustomerCourse) {
    && row.course == c.course.name
    && row.language == c.course.language.name
    && row.amount == c.course.price
    && row.status == c.paymentStatus
    && row.date == (if c.paymentDate.Some? then Some(FormatDate(c.paymentDate.value)) else None)
  }

  /** The loop over the window that builds `detailed_data`, one row per payment, paid or not. */
  method CollectDetailedData(window: seq<CustomerCourse>) returns (rows: seq<DetailRow>)
    ensures |rows| == |window|
    ensures forall i :: 0 <= i < |rows| ==> IsDetailRowOf(rows[i], window[i])
    ensures forall i :: 0 <= i < |rows| ==>
      && (rows[i].date.Some? <==> window[i].paymentDate.Some?)
      && (rows[i].date.Some? ==> ParseDate(rows[i].date.value) == window[i].paymentDate)
  {
    rows := [];
    var i := 0;
    while i < |window|
      invariant 0 <= i <= |window|
      invariant |rows| == i
      invariant forall k :: 0 <= k < i ==> IsDetailRowOf(rows[k], window[k])
    {
      var payment := window[i];
      var date: Option<string> := None;
      if payment.paymentDate.Some? {
        date := Some(FormatDate(payment.paymentDate.value));
      }
      rows := rows + [DetailRow(date, payment.course.name, payment.course.language.name, payment.course.price, payment.paymentStatus)];
      i := i + 1;
    }
    forall k | 0 <= k < |rows| && window[k].paymentDate.Some?
      ensures ParseDate(rows[k].date.value) == window[k].paymentDate
    {
      ParseFormatDate(window[k].paymentDate.value);
    }
  }

  // ----- The report -----

  /** The response body of `financial_report`. */
  datatype Report = Report(
    totalPayments: int,
    paidPercentage: real,
    languageStats: seq<LanguageStat>,
    monthlyStats: seq<MonthStat>,
    detailedData: seq<DetailRow>)

  /** A missing `start_date` or `end_date` gives a report of zeros and empty lists. */
  lemma MissingBoundEmptyReport(records: seq<CustomerCourse>, languages: seq<Language>, start: Option<CalendarDate>, end: Option<CalendarDate>)
    requires start.None? || end.None?
    ensures var window := FilterRange(records, start, end);
      && window == []
      && TotalPayments(window) == 0 && PaidPercentage(window) == 0.0
      && LanguageStatsOf(window, languages) == [] && MonthlyStatsOf(window) == []
  {
    MissingBoundEmptyWindow(records, start, end);
    LanguageStatsEmptyWindow(languages);
  }

  /** `financial_report(request)` for the given date range, `CustomerCourse` rows and `Language` rows. */
  method BuildReport(records: seq<CustomerCourse>, languages: seq<Language>, start: Option<CalendarDate>, end: Option<CalendarDate>)
    returns (report: Report)
    ensures var window := FilterRange(records, start, end);
      && report.totalPayments == TotalPayments(window)
      && report.paidPercentage == PaidPercentage(window)
      && report.languageStats == LanguageStatsOf(window, languages)
      && report.monthlyStats == MonthlyStatsOf(window)
      && |report.detailedData| == |window|
      && (forall i :: 0 <= i < |window| ==> IsDetailRowOf(report.detailedData[i], window[i]))
    ensures 0.0 <= report.paidPercentage <= 100.0
    ensures StrictlyAscending(report.monthlyStats)
    ensures SumMonthAmounts(report.monthlyStats) == report.totalPayments
    ensures (forall c :: c in records ==> c.course.language in languages && c.course.price >= 0) && DistinctIds(languages)
      ==> SumLanguageAmounts(report.languageStats) == report.totalPayments
    ensures forall i :: 0 <= i < |report.detailedData| ==> report.detailedData[i].date.Some?
    ensures start.None? || end.None? ==>
      && report.totalPayments == 0 && report.paidPercentage == 0.0
      && report.languageStats == [] && report.monthlyStats == [] && report.detailedData == []
  {
    var window := FilterRange(records, start, end);
    var totalPayments := PriceSum(Paid(window));
    var paidPercentage := PaidPercentage(window);
    var languageStats := CollectLanguageStats(window, languages);
    var monthlyStats := MonthlyStatsOf(window);
    var detailedData := CollectDetailedData(window);
    report := Report(totalPayments, paidPercentage, languageStats, monthlyStats, detailedData);

    MonthlyStatsAscending(window);
    forall c | c in window ensures c.paymentDate.Some? { }
    MonthlyStatsSumToTotal(window);
    if (forall c :: c in records ==> c.course.language in languages && c.course.price >= 0) && DistinctIds(languages) {
      LanguageStatsSumToTotal(window, languages);
    }
    forall i | 0 <= i < |detailedData| ensures detailedData[i].date.Some? {
      assert window[i] in window;
    }
    if start.None? || end.None? {
      MissingBoundEmptyReport(records, languages, start, end);
    }
  }
}
