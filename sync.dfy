/** Change detection of `handleRefresh` in `App.tsx`: the record key, the
    records added since the cached snapshot, one notification per ledger
    category, and the "latest salary statement" check. */
module Sync {
  import opened Wrappers
  import opened Seqs
  import opened Text
  import opened Amounts
  import opened DataService
  import opened Notifications

  /** Why a cycle fails: the fetch threw, or `getRecordKey` met a record
      without a name (`undefined.trim()`). */
  datatype RefreshError = FetchFailed(reason: FetchError) | UnnamedRecord

  /** A ledger category and the wording and class of its notifications. */
  datatype Category = Category(singular: string, plural: string, kind: Kind, priority: Priority)

  const Bonuses := Category("مكافأة", "سجل المكافآت", AdminKind, Normal)
  const Dispatches := Category("إيفاد", "سجل الإيفادات", AdminKind, Normal)
  const ExtraHours := Category("ساعات إضافية", "سجل الإضافي", SalaryKind, Normal)

  /** `cachedData.x?.trim() || 'no-date'`. */
  function DateKey(date: Option<string>): string {
    if date.Some? && Trim(date.value) != "" then Trim(date.value) else "no-date"
  }

  /** Every record of the list has a name, so `getRecordKey` does not throw. */
  predicate Keyable(rs: seq<LedgerRecord>) {
    forall r :: r in rs ==> r.name.Some?
  }

  /** `getRecordKey(r)`: `name.trim()-amount-date`. */
  function Key(r: LedgerRecord): string
    requires r.name.Some?
  {
    Trim(r.name.value) + "-" + AmountText(r.amount) + "-" + DateKey(r.date)
  }

  /** `new Set(oldArr.map(getRecordKey))`. */
  function Keys(rs: seq<LedgerRecord>): set<string> {
    set r | r in rs && r.name.Some? :: Key(r)
  }

  /** The test of `filter` in `findNewRecords`: the record's key is not an
      old key. */
  function IsNew(oldKeys: set<string>): LedgerRecord -> bool {
    (x: LedgerRecord) => x.name.Some? && Key(x) !in oldKeys
  }

  /** `newArr.filter(r => !oldKeys.has(getRecordKey(r)))`: every latest
      record whose key is not among the old keys, as often as it occurs
      there, in latest order. */
  function Added(oldKeys: set<string>, latest: seq<LedgerRecord>): (added: seq<LedgerRecord>)
    requires Keyable(latest)
    ensures |added| <= |latest| && Subsequence(added, latest) && Keyable(added)
    ensures forall x :: x in added <==> x in latest && Key(x) !in oldKeys
    ensures forall x :: multiset(added)[x] == if x.name.Some? && Key(x) !in oldKeys then multiset(latest)[x] else 0
  {
    var p := IsNew(oldKeys);
    var added := Filter(latest, p);
    FilterSubsequence(latest, p);
    forall x ensures x in added <==> x in latest && p(x) {
      FilterMember(latest, p, x);
    }
    forall x ensures multiset(added)[x] == if p(x) then multiset(latest)[x] else 0 {
      FilterMultiplicity(latest, p, x);
    }
    added
  }

  /** When every latest key is already known nothing is added; in particular
      a list compared with itself adds nothing. */
  lemma AddedNothing(oldKeys: set<string>, latest: seq<LedgerRecord>)
    requires Keyable(latest)
    requires forall k :: 0 <= k < |latest| ==> Key(latest[k]) in oldKeys
    ensures Added(oldKeys, latest) == []
  {
    FilterNone(latest, IsNew(oldKeys));
  }

  lemma AddedSelf(rs: seq<LedgerRecord>)
    requires Keyable(rs)
    ensures Added(Keys(rs), rs) == []
  {
    forall k | 0 <= k < |rs| ensures Key(rs[k]) in Keys(rs) {
      assert rs[k] in rs;
    }
    AddedNothing(Keys(rs), rs);
  }

  /** The old keys depend only on which records the baseline holds, so
      reordering the cached list changes nothing. */
  lemma KeysPermutation(a: seq<LedgerRecord>, b: seq<LedgerRecord>)
    requires multiset(a) == multiset(b)
    ensures Keys(a) == Keys(b)
  {
    assert forall r :: r in a <==> r in b by {
      forall r ensures r in a <==> r in b {
        assert r in a <==> r in multiset(a);
        assert r in b <==> r in multiset(b);
      }
    }
  }

  /** Distinct records can share a key: the key joins its parts with `-`,
      which the parts may contain themselves. */
  lemma KeyCollision()
    ensures LedgerRecord(Some("a"), Amount(false, 1, ""), Some("2-x"))
         != LedgerRecord(Some("a-1"), Amount(false, 2, ""), Some("x"))
    ensures Key(LedgerRecord(Some("a"), Amount(false, 1, ""), Some("2-x")))
         == Key(LedgerRecord(Some("a-1"), Amount(false, 2, ""), Some("x")))
  {
    FirstKey();
    SecondKey();
  }

  lemma FirstKey()
    ensures Key(LedgerRecord(Some("a"), Amount(false, 1, ""), Some("2-x"))) == "a-1-2-x"
  {
    PlainKey("a", Amount(false, 1, ""), "2-x");
    DigitText(1);
    assert "a" + "-" + "1" + "-" + "2-x" == "a-1-2-x";
  }

  lemma SecondKey()
    ensures Key(LedgerRecord(Some("a-1"), Amount(false, 2, ""), Some("x"))) == "a-1-2-x"
  {
    PlainKey("a-1", Amount(false, 2, ""), "x");
    DigitText(2);
    assert "a-1" + "-" + "2" + "-" + "x" == "a-1-2-x";
  }

  /** The text of a one-digit whole amount is that digit. */
  lemma DigitText(n: nat)
    requires n < 10
    ensures AmountText(Amount(false, n, "")) == ['0' + n as char]
  {
  }

  /** The key of a record whose name and date need no trimming. */
  lemma PlainKey(name: string, amount: Amount, date: string)
    requires name != [] && !IsWhitespace(name[0]) && !IsWhitespace(name[|name| - 1])
    requires date != [] && !IsWhitespace(date[0]) && !IsWhitespace(date[|date| - 1])
    ensures Key(LedgerRecord(Some(name), amount, Some(date))) == name + "-" + AmountText(amount) + "-" + date
  {
    TrimIdentity(name);
    TrimIdentity(date);
  }

  /** A record with a date has the key of the same record without one
      exactly when its date is blank (empty or whitespace only) or trims to
      the placeholder "no-date". */
  lemma NoDateKeys(name: string, amount: Amount, date: string)
    ensures Key(LedgerRecord(Some(name), amount, Some(date))) == Key(LedgerRecord(Some(name), amount, None))
      <==> Blank(date) || Trim(date) == "no-date"
  {
    var prefix := Trim(name) + "-" + AmountText(amount) + "-";
    var dated := DateKey(Some(date));
    assert Key(LedgerRecord(Some(name), amount, Some(date))) == prefix + dated;
    assert Key(LedgerRecord(Some(name), amount, None)) == prefix + "no-date";
    if prefix + dated == prefix + "no-date" {
      assert dated == (prefix + dated)[|prefix|..];
    }
    BlankTrim(date);
  }

  /** The wording of the singular notification. */
  function SingularEvent(cat: Category, name: string, amount: string): (e: Event)
    ensures e.kind == cat.kind && e.priority == cat.priority
    ensures Contains(e.title, cat.singular)
    ensures Contains(e.message, name) && Contains(e.message, amount)
  {
    var title := cat.singular + " جديدة";
    var m1 := "تم إضافة " + cat.singular + ": ";
    var m2 := " بقيمة ";
    var message := m1 + name + m2 + amount;
    ContainsMiddle([], cat.singular, " جديدة");
    assert [] + cat.singular + " جديدة" == title;
    ContainsMiddle(m1, name, m2 + amount);
    assert m1 + name + (m2 + amount) == message;
    ContainsMiddle(m1 + name + m2, amount, []);
    assert m1 + name + m2 + amount + [] == message;
    Event(title, message, cat.kind, cat.priority)
  }

  /** The wording of the plural notification. */
  function PluralEvent(cat: Category, count: nat): (e: Event)
    ensures e.kind == cat.kind && e.priority == cat.priority
    ensures Contains(e.title, cat.plural)
    ensures Contains(e.message, NatToString(count))
  {
    var title := "تحديث في " + cat.plural;
    var digits := NatToString(count);
    var tail := " سجلات جديدة في " + cat.plural + ".";
    var message := "تم إضافة " + digits + tail;
    ContainsMiddle("تحديث في ", cat.plural, []);
    assert "تحديث في " + cat.plural + [] == title;
    ContainsMiddle("تم إضافة ", digits, tail);
    Event(title, message, cat.kind, cat.priority)
  }

  /** The notification of one ledger category (`checkForNewRecords`): none
      for no added record, a singular one naming the record and its
      formatted amount for one, a plural one counting them for more. */
  function CategoryEvent(cat: Category, added: seq<LedgerRecord>, locale: Locale): (e: Option<Event>)
    requires Keyable(added)
    ensures e.None? <==> added == []
    ensures e.Some? ==> e.value.kind == cat.kind && e.value.priority == cat.priority
    ensures |added| == 1 ==>
      && Contains(e.value.message, added[0].name.value)
      && Contains(e.value.message, locale.formatAmount(added[0].amount))
      && Contains(e.value.title, cat.singular)
    ensures |added| > 1 ==>
      && Contains(e.value.message, NatToString(|added|))
      && Contains(e.value.title, cat.plural)
  {
    if |added| == 0 then None
    else if |added| == 1 then Some(SingularEvent(cat, added[0].name.value, locale.formatAmount(added[0].amount)))
    else Some(PluralEvent(cat, |added|))
  }

  /** The high-priority salary notification: only with a cache, only when
      the latest history is non-empty, and only when the baseline is empty or
      its first statement has another month or year. */
  function SalaryEvent(cached: bool, baseline: seq<SalaryRecord>, latest: seq<SalaryRecord>): (e: Option<Event>)
    ensures e.Some? <==>
      cached && |latest| > 0
      && (|baseline| == 0 || latest[0].month != baseline[0].month || latest[0].year != baseline[0].year)
    ensures e.Some? ==> e.value.kind == SalaryKind && e.value.priority == High
    ensures e.Some? ==> Contains(e.value.message, latest[0].month) && Contains(e.value.message, latest[0].year)
  {
    if |latest| > 0 && (|baseline| == 0 || latest[0].month != baseline[0].month || latest[0].year != baseline[0].year)
      && cached
    then Some(SalaryNotice(latest[0].month, latest[0].year))
    else None
  }

  /** The wording of the salary notification. */
  function SalaryNotice(month: string, year: string): (e: Event)
    ensures e.kind == SalaryKind && e.priority == High
    ensures Contains(e.message, month) && Contains(e.message, year)
  {
    var m1 := "تم رفع تفاصيل راتب شهر ";
    var m2 := " لسنة ";
    var message := m1 + month + m2 + year;
    ContainsMiddle(m1, month, m2 + year);
    assert m1 + month + (m2 + year) == message;
    ContainsMiddle(m1 + month + m2, year, []);
    assert m1 + month + m2 + year + [] == message;
    Event("راتب جديد", message, SalaryKind, High)
  }

  /** A new or changed line item in a statement whose month and year are
      unchanged notifies nothing. */
  lemma DetailChangeSilent(cached: bool, old0: SalaryRecord, new0: SalaryRecord,
                           oldRest: seq<SalaryRecord>, newRest: seq<SalaryRecord>)
    requires new0.month == old0.month && new0.year == old0.year
    ensures SalaryEvent(cached, [old0] + oldRest, [new0] + newRest).None?
  {
  }

  function Optional(e: Option<Event>): (s: seq<Event>)
    ensures |s| <= 1
  {
    if e.Some? then [e.value] else []
  }

  /** All six ledger lists of the cached and the latest snapshot have names. */
  predicate AllKeyable(cached: Employee, latest: Employee) {
    && Keyable(cached.bonuses) && Keyable(cached.dispatches) && Keyable(cached.extraHours)
    && Keyable(latest.bonuses) && Keyable(latest.dispatches) && Keyable(latest.extraHours)
  }

  /** The notifications of a category against its cached baseline. */
  function LedgerEvent(cat: Category, baseline: seq<LedgerRecord>, latest: seq<LedgerRecord>, locale: Locale): Option<Event>
    requires Keyable(latest)
  {
    CategoryEvent(cat, Added(Keys(baseline), latest), locale)
  }

  /** The events of one refresh cycle, in push order: bonuses, dispatches,
      extra hours, salary. Without a cached snapshot the ledger checks return
      early and the salary check is silenced; with one, a record without a
      name makes the cycle fail. */
  function Events(cache: Option<Employee>, latest: Employee, locale: Locale): Result<seq<Event>, RefreshError> {
    match cache
    case None => Ok([])
    case Some(c) =>
      if !AllKeyable(c, latest) then Err(UnnamedRecord)
      else
        Ok(Optional(LedgerEvent(Bonuses, c.bonuses, latest.bonuses, locale))
          + Optional(LedgerEvent(Dispatches, c.dispatches, latest.dispatches, locale))
          + Optional(LedgerEvent(ExtraHours, c.extraHours, latest.extraHours, locale))
          + Optional(SalaryEvent(true, c.salaryHistory, latest.salaryHistory)))
  }

  /** The first sync after login, with nothing cached, is silent whatever was
      fetched. */
  lemma FirstSyncSilent(latest: Employee, locale: Locale)
    ensures Events(None, latest, locale) == Ok([])
  {
  }

  /** A cycle raises at most four notifications, and one of them is high
      priority exactly when the salary check fires; it fails exactly when a
      cached or fetched ledger record has no name. */
  lemma EventsSpec(cache: Option<Employee>, latest: Employee, locale: Locale)
    ensures var r := Events(cache, latest, locale);
      r.Ok? ==> |r.value| <= 4
    ensures var r := Events(cache, latest, locale);
      r.Ok? ==>
        ((exists k :: 0 <= k < |r.value| && r.value[k].priority == High)
         <==> cache.Some? && SalaryEvent(true, cache.value.salaryHistory, latest.salaryHistory).Some?)
    ensures Events(cache, latest, locale).Err? <==> cache.Some? && !AllKeyable(cache.value, latest)
  {
    if cache.Some? && AllKeyable(cache.value, latest) {
      var c := cache.value;
      var b := LedgerEvent(Bonuses, c.bonuses, latest.bonuses, locale);
      var d := LedgerEvent(Dispatches, c.dispatches, latest.dispatches, locale);
      var x := LedgerEvent(ExtraHours, c.extraHours, latest.extraHours, locale);
      var s := SalaryEvent(true, c.salaryHistory, latest.salaryHistory);
      assert Events(cache, latest, locale) == Ok(Optional(b) + Optional(d) + Optional(x) + Optional(s));
      LedgerNormal(b, d, x);
      HighOnlySalary(Optional(b) + Optional(d) + Optional(x), s);
    }
  }

  /** The three ledger checks raise at most three normal-priority events. */
  lemma LedgerNormal(b: Option<Event>, d: Option<Event>, x: Option<Event>)
    requires b.Some? ==> b.value.priority == Normal
    requires d.Some? ==> d.value.priority == Normal
    requires x.Some? ==> x.value.priority == Normal
    ensures var ledger := Optional(b) + Optional(d) + Optional(x);
      |ledger| <= 3 && forall k :: 0 <= k < |ledger| ==> ledger[k].priority == Normal
  {
    var bd := Optional(b) + Optional(d);
    assert forall k :: 0 <= k < |bd| ==> bd[k].priority == Normal;
  }

  /** Normal-priority events followed by the optional salary event hold a
      high-priority one exactly when the salary event is there. */
  lemma HighOnlySalary(ledger: seq<Event>, s: Option<Event>)
    requires forall k :: 0 <= k < |ledger| ==> ledger[k].priority == Normal
    requires s.Some? ==> s.value.priority == High
    ensures var all := ledger + Optional(s);
      (exists k :: 0 <= k < |all| && all[k].priority == High) <==> s.Some?
  {
    var all := ledger + Optional(s);
    if s.Some? {
      assert all[|ledger|].priority == High;
    } else {
      assert all == ledger;
    }
  }

  /** Once a cycle has cached the latest snapshot, a cycle that fetches the
      same snapshot again raises nothing. */
  lemma SecondSyncSilent(latest: Employee, locale: Locale)
    requires AllKeyable(latest, latest)
    ensures Events(Some(latest), latest, locale) == Ok([])
  {
    AddedSelf(latest.bonuses);
    AddedSelf(latest.dispatches);
    AddedSelf(latest.extraHours);
    var b := Optional(LedgerEvent(Bonuses, latest.bonuses, latest.bonuses, locale));
    var d := Optional(LedgerEvent(Dispatches, latest.dispatches, latest.dispatches, locale));
    var x := Optional(LedgerEvent(ExtraHours, latest.extraHours, latest.extraHours, locale));
    var s := Optional(SalaryEvent(true, latest.salaryHistory, latest.salaryHistory));
    assert b == [] && d == [] && x == [] && s == [];
    var e := Events(Some(latest), latest, locale);
    assert e.value == b + d + x + s;
    assert e.value == [];
  }

  /** Reordering the cached ledger lists does not change the events. */
  lemma BaselineOrderIrrelevant(c1: Employee, c2: Employee, latest: Employee, locale: Locale)
    requires multiset(c1.bonuses) == multiset(c2.bonuses)
    requires multiset(c1.dispatches) == multiset(c2.dispatches)
    requires multiset(c1.extraHours) == multiset(c2.extraHours)
    requires c1.salaryHistory == c2.salaryHistory
    ensures Events(Some(c1), latest, locale) == Events(Some(c2), latest, locale)
  {
    KeysPermutation(c1.bonuses, c2.bonuses);
    KeysPermutation(c1.dispatches, c2.dispatches);
    KeysPermutation(c1.extraHours, c2.extraHours);
    assert Keyable(c1.bonuses) <==> Keyable(c2.bonuses) by { KeyablePermutation(c1.bonuses, c2.bonuses); }
    assert Keyable(c1.dispatches) <==> Keyable(c2.dispatches) by { KeyablePermutation(c1.dispatches, c2.dispatches); }
    assert Keyable(c1.extraHours) <==> Keyable(c2.extraHours) by { KeyablePermutation(c1.extraHours, c2.extraHours); }
  }

  lemma KeyablePermutation(a: seq<LedgerRecord>, b: seq<LedgerRecord>)
    requires multiset(a) == multiset(b)
    ensures Keyable(a) <==> Keyable(b)
  {
    forall r ensures r in a <==> r in b {
      assert r in a <==> r in multiset(a);
      assert r in b <==> r in multiset(b);
    }
    if Keyable(a) {
      forall k | 0 <= k < |b| ensures b[k].name.Some? {
        assert b[k] in a;
      }
    }
    if Keyable(b) {
      forall k | 0 <= k < |a| ensures a[k].name.Some? {
        assert a[k] in b;
      }
    }
  }

  /** Permuting the freshly fetched ledger lists leaves the events unchanged:
      the added records are then a permutation, and a category's event
      depends only on how many there are and, for one, on that record. */
  lemma LatestOrderIrrelevant(c: Employee, l1: Employee, l2: Employee, locale: Locale)
    requires multiset(l1.bonuses) == multiset(l2.bonuses)
    requires multiset(l1.dispatches) == multiset(l2.dispatches)
    requires multiset(l1.extraHours) == multiset(l2.extraHours)
    requires l1.salaryHistory == l2.salaryHistory
    ensures Events(Some(c), l1, locale) == Events(Some(c), l2, locale)
  {
    KeyablePermutation(l1.bonuses, l2.bonuses);
    KeyablePermutation(l1.dispatches, l2.dispatches);
    KeyablePermutation(l1.extraHours, l2.extraHours);
    if AllKeyable(c, l1) {
      LedgerEventPermutation(Bonuses, c.bonuses, l1.bonuses, l2.bonuses, locale);
      LedgerEventPermutation(Dispatches, c.dispatches, l1.dispatches, l2.dispatches, locale);
      LedgerEventPermutation(ExtraHours, c.extraHours, l1.extraHours, l2.extraHours, locale);
    }
  }

  /** One category's event does not depend on the order of the fetched list. */
  lemma LedgerEventPermutation(cat: Category, baseline: seq<LedgerRecord>,
                               a: seq<LedgerRecord>, b: seq<LedgerRecord>, locale: Locale)
    requires Keyable(a) && Keyable(b) && multiset(a) == multiset(b)
    ensures LedgerEvent(cat, baseline, a, locale) == LedgerEvent(cat, baseline, b, locale)
  {
    var x, y := Added(Keys(baseline), a), Added(Keys(baseline), b);
    FilterPermutation(a, b, IsNew(Keys(baseline)));
    assert multiset(x) == multiset(y);
    assert |x| == |multiset(x)| == |multiset(y)| == |y|;
    if |x| == 1 {
      assert x[0] in multiset(y);
      assert y == [y[0]];
    }
  }
}
