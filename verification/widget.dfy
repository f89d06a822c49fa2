/**
 * The widget controller of `initVolunteerHoursTracker`: the in-memory entry
 * list of one container, the storage slot it shares with every other tracker
 * on the page, the submit and clear actions, and `render`'s view of the list.
 */
module Widget {
  import opened Text
  import opened Sorting
  import opened Keys
  import opened Entries
  import opened Storage
  import opened Summary

  /** One row of the entries table: the placeholder, or an entry. */
  datatype Row = NoEntriesRow | EntryRow(entry: Entry)

  /** What `render` writes into the table and the two summary lists. */
  datatype View = View(table: seq<Row>, byMonth: seq<SummaryItem>, byYear: seq<SummaryItem>)

  function DateOf(e: Entry): string
  {
    e.date
  }

  /**
   * `[...state.entries].sort((a, b) => (a.date < b.date ? 1 : -1))`: a copy of the
   * entries with non-increasing dates. The order of entries with equal dates is
   * left to the sort; this one keeps them in list order.
   */
  function SortByDateDesc(es: seq<Entry>): (r: seq<Entry>)
    ensures multiset(r) == multiset(es)
    ensures forall i, j :: 0 <= i < j < |r| ==> !Less(r[i].date, r[j].date)
  {
    SortDescDescending(es, DateOf);
    SortDesc(es, DateOf)
  }

  function RowEntries(rows: seq<Row>): seq<Entry>
    requires forall i :: 0 <= i < |rows| ==> rows[i].EntryRow?
  {
    seq(|rows|, i requires 0 <= i < |rows| => rows[i].entry)
  }

  /**
   * The table body: the single placeholder row when there are no entries,
   * otherwise one row per entry, newest date first.
   */
  function TableRows(es: seq<Entry>): (rows: seq<Row>)
    ensures es == [] ==> rows == [NoEntriesRow]
    ensures es != [] ==> |rows| == |es| && forall i :: 0 <= i < |rows| ==> rows[i].EntryRow?
    ensures es != [] ==> multiset(RowEntries(rows)) == multiset(es)
    ensures es != [] ==> forall i, j :: 0 <= i < j < |rows| ==> !Less(rows[i].entry.date, rows[j].entry.date)
  {
    var sorted := SortByDateDesc(es);
    if |sorted| == 0 then [NoEntriesRow]
    else
      var rows := seq(|sorted|, i requires 0 <= i < |sorted| => EntryRow(sorted[i]));
      assert RowEntries(rows) == sorted;
      rows
  }

  /**
   * The browser's storage entry for the widget, the value under `STORAGE_KEY`,
   * shared by every tracker on the page.
   */
  class Store {
    var slot: Slot

    constructor (initial: Slot)
      ensures slot == initial
    {
      slot := initial;
    }
  }

  class Tracker {
    /** `state.entries`, in insertion order. */
    var entries: seq<Entry>
    const store: Store

    /** Initialisation: the entries are whatever `loadEntries` finds in the slot. */
    constructor (store: Store)
      ensures this.store == store
      ensures entries == Load(store.slot)
    {
      this.store := store;
      entries := Load(store.slot);
    }

    /**
     * The submit handler. A submission that fails validation changes nothing;
     * one that passes appends exactly one entry, leaves the earlier entries as
     * they were and overwrites the slot with the whole new list, which loads
     * back as that list.
     */
    method Submit(form: Submission) returns (accepted: bool)
      modifies this, store
      ensures accepted <==> Validate(form).Some?
      ensures accepted ==> entries == old(entries) + [Validate(form).value]
      ensures accepted ==> store.slot == Save(entries) && Load(store.slot) == entries
      ensures !accepted ==> entries == old(entries) && store.slot == old(store.slot)
    {
      match Validate(form)
      case None =>
        accepted := false;
      case Some(entry) =>
        entries := entries + [entry];
        store.slot := Save(entries);
        LoadSave(entries);
        accepted := true;
    }

    /** The clear handler: the list and the slot are both emptied, with no confirmation. */
    method Clear()
      modifies this, store
      ensures entries == []
      ensures store.slot == Save([]) && Load(store.slot) == []
    {
      entries := [];
      store.slot := Save(entries);
      LoadSave(entries);
    }

    /**
     * `render`: the table sorted by date, the month and year summaries of the
     * fold. It changes neither the list (its order included) nor the slot.
     */
    method Render() returns (v: View)
      ensures v.table == TableRows(entries)
      ensures v.byMonth == SummaryList(Totals(entries, Month))
      ensures v.byYear == SummaryList(Totals(entries, Year))
    {
      var monthly, yearly := Aggregate(entries);
      SumsAreTotals(monthly, entries, Month);
      SumsAreTotals(yearly, entries, Year);
      v := View(TableRows(entries), SummaryList(monthly), SummaryList(yearly));
    }
  }

  /** With no entries, the table and both summary lists show only their placeholders. */
  lemma EmptyView()
    ensures TableRows([]) == [NoEntriesRow]
    ensures SummaryList(Totals([], Month)) == [NoEntriesYet]
    ensures SummaryList(Totals([], Year)) == [NoEntriesYet]
  {
    assert Totals([], Month) == map[];
    assert Totals([], Year) == map[];
  }

  /** Three entries whose dates are in the order `b > c > a` are shown as `b, c, a`. */
  lemma SortThree(a: Entry, b: Entry, c: Entry)
    requires Less(a.date, b.date) && Less(a.date, c.date) && Less(c.date, b.date)
    ensures SortByDateDesc([a, b, c]) == [b, c, a]
  {
    LessAsymmetric(c.date, b.date);
    assert [a, b, c][1..] == [b, c];
    assert [b, c][1..] == [c];
    assert SortDesc([c], DateOf) == [c];
    assert SortDesc([b, c], DateOf) == [b, c];
    assert Insert(a, [c], DateOf) == [c, a];
  }

  /** Entries dated 2023-01-15, 2024-03-01 and 2023-12-25 are shown newest first. */
  lemma NewestFirstExample(a: Entry, b: Entry, c: Entry)
    requires a.date == "2023-01-15" && b.date == "2024-03-01" && c.date == "2023-12-25"
    ensures SortByDateDesc([a, b, c]) == [b, c, a]
  {
    LessAtFirstDifference(a.date, b.date, 3);
    LessAtFirstDifference(a.date, c.date, 5);
    LessAtFirstDifference(c.date, b.date, 3);
    SortThree(a, b, c);
  }

  lemma TwoYearKeys(a: Entry, b: Entry, c: Entry)
    requires YearKey(a.date) == YearKey(c.date)
    ensures PeriodKeys([a, b, c], Year) == {YearKey(a.date), YearKey(b.date)}
    ensures YearKey(a.date) != YearKey(b.date) ==> |PeriodKeys([a, b, c], Year)| == 2
  {
    assert [a, b, c][0] == a && [a, b, c][1] == b && [a, b, c][2] == c;
  }

  /** Three entries over two years, the middle one in the later year: that year is listed first. */
  lemma YearsNewestFirst(a: Entry, b: Entry, c: Entry)
    requires YearKey(a.date) == YearKey(c.date) && Less(YearKey(a.date), YearKey(b.date))
    ensures SortedKeys(PeriodKeys([a, b, c], Year)) == [YearKey(b.date), YearKey(a.date)]
  {
    TwoYearKeys(a, b, c);
    SortedPair(YearKey(b.date), YearKey(a.date));
  }

  /** The year summary of those entries lists 2024 before 2023. */
  lemma YearsNewestFirstExample(a: Entry, b: Entry, c: Entry)
    requires a.date == "2023-01-15" && b.date == "2024-03-01" && c.date == "2023-12-25"
    ensures SortedKeys(PeriodKeys([a, b, c], Year)) == ["2024", "2023"]
  {
    assert YearKey(a.date) == YearKey(c.date) == "2023" && YearKey(b.date) == "2024";
    LessAtFirstDifference("2023", "2024", 3);
    YearsNewestFirst(a, b, c);
  }

  /** Two trackers on one page share the slot: the later write wins, with no merge. */
  method SharedSlotLastWriteWins(initial: Slot, form: Submission)
    requires Validate(form).Some?
  {
    var store := new Store(initial);
    var first := new Tracker(store);
    var second := new Tracker(store);
    var accepted := first.Submit(form);
    assert accepted && Load(store.slot) == first.entries;
    second.Clear();
    assert Load(store.slot) == [] && second.entries == [];
    assert |first.entries| == |Load(initial)| + 1;
  }
}
