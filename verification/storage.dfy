/**
 * The persistence adapter (`saveEntries`, `loadEntries`). Browser storage holds
 * one text value under the key `oaVolunteerHoursEntries` (`STORAGE_KEY`), and
 * every tracker on the page reads and writes that one value. The model keeps what
 * that text means instead of the text: nothing, something unreadable, or the
 * JSON value it parses to.
 */
module Storage {
  import opened Entries

  /** A parsed JSON value. */
  datatype Json =
    | JNull
    | JBool(b: bool)
    | JNum(n: real)
    | JStr(s: string)
    | JArr(items: seq<Json>)
    | JObj(fields: map<string, Json>)

  /**
   * The storage slot as `loadEntries` finds it: `Absent` when `getItem` gives
   * nothing or the empty string, `Unreadable` when reading or `JSON.parse` throws,
   * otherwise the parsed value.
   */
  datatype Slot = Absent | Unreadable | Stored(value: Json)

  predicate HasString(o: map<string, Json>, name: string)
  {
    name in o && o[name].JStr?
  }

  predicate HasNumber(o: map<string, Json>, name: string)
  {
    name in o && o[name].JNum?
  }

  /**
   * The load filter's test: an object whose `event` and `date` are strings and
   * whose `arrowmen`, `hours` and `totalHours` are numbers. Nulls, numbers,
   * strings and arrays have none of these fields and fail it.
   */
  predicate IsEntryShaped(j: Json)
  {
    && j.JObj?
    && HasString(j.fields, "event")
    && HasString(j.fields, "date")
    && HasNumber(j.fields, "arrowmen")
    && HasNumber(j.fields, "hours")
    && HasNumber(j.fields, "totalHours")
  }

  /** The entry a shaped element stands for (its other fields are ignored). */
  function Decode(j: Json): Entry
    requires IsEntryShaped(j)
  {
    Entry(j.fields["event"].s, j.fields["date"].s, j.fields["arrowmen"].n,
          j.fields["hours"].n, j.fields["totalHours"].n)
  }

  /** What `JSON.stringify` and a later `JSON.parse` make of one entry. */
  function Encode(e: Entry): (j: Json)
    ensures IsEntryShaped(j) && Decode(j) == e
  {
    JObj(map["event" := JStr(e.event), "date" := JStr(e.date), "arrowmen" := JNum(e.arrowmen),
             "hours" := JNum(e.hours), "totalHours" := JNum(e.totalHours)])
  }

  function EncodeAll(es: seq<Entry>): (r: seq<Json>)
    ensures |r| == |es|
    ensures forall i :: 0 <= i < |es| ==> r[i] == Encode(es[i])
  {
    if es == [] then [] else [Encode(es[0])] + EncodeAll(es[1..])
  }

  function DecodeAll(js: seq<Json>): (r: seq<Entry>)
    requires forall i :: 0 <= i < |js| ==> IsEntryShaped(js[i])
    ensures |r| == |js|
    ensures forall i :: 0 <= i < |js| ==> r[i] == Decode(js[i])
  {
    if js == [] then [] else [Decode(js[0])] + DecodeAll(js[1..])
  }

  /**
   * The `parsed.filter(...)` step: the shaped elements, in their original order.
   * An element is kept exactly when it is in the input and shaped.
   */
  function KeepEntries(items: seq<Json>): (r: seq<Json>)
    ensures |r| <= |items|
    ensures forall i :: 0 <= i < |r| ==> IsEntryShaped(r[i])
    ensures forall x :: x in r <==> x in items && IsEntryShaped(x)
  {
    if items == [] then []
    else
      var rest := KeepEntries(items[1..]);
      assert items == [items[0]] + items[1..];
      if IsEntryShaped(items[0]) then [items[0]] + rest else rest
  }

  /** `saveEntries`: the whole list overwrites the slot. */
  function Save(es: seq<Entry>): (slot: Slot)
    ensures slot.Stored? && slot.value.JArr? && |slot.value.items| == |es|
  {
    Stored(JArr(EncodeAll(es)))
  }

  /**
   * `loadEntries`: the empty list when the slot is absent, unreadable or not an
   * array; otherwise the entries of the array's shaped elements.
   */
  function Load(slot: Slot): (r: seq<Entry>)
    ensures !(slot.Stored? && slot.value.JArr?) ==> r == []
    ensures slot.Stored? && slot.value.JArr? ==> |r| <= |slot.value.items|
  {
    match slot
    case Stored(JArr(items)) => DecodeAll(KeepEntries(items))
    case _ => []
  }

  /** Filtering works element by element: it distributes over concatenation. */
  lemma {:induction false} KeepEntriesAppend(a: seq<Json>, b: seq<Json>)
    ensures KeepEntries(a + b) == KeepEntries(a) + KeepEntries(b)
  {
    if a == [] {
      assert a + b == b;
    } else {
      assert (a + b)[1..] == a[1..] + b;
      KeepEntriesAppend(a[1..], b);
    }
  }

  /** A list whose elements are all shaped passes the filter unchanged. */
  lemma {:induction false} KeepEntriesAllShaped(items: seq<Json>)
    requires forall i :: 0 <= i < |items| ==> IsEntryShaped(items[i])
    ensures KeepEntries(items) == items
  {
    if items != [] {
      KeepEntriesAllShaped(items[1..]);
      assert items == [items[0]] + items[1..];
    }
  }

  lemma {:induction false} DecodeAllAppend(a: seq<Json>, b: seq<Json>)
    requires forall i :: 0 <= i < |a| ==> IsEntryShaped(a[i])
    requires forall i :: 0 <= i < |b| ==> IsEntryShaped(b[i])
    ensures DecodeAll(a + b) == DecodeAll(a) + DecodeAll(b)
  {
    var ab := a + b;
    assert forall i :: 0 <= i < |ab| ==> IsEntryShaped(ab[i]);
    assert forall i :: 0 <= i < |ab| ==> DecodeAll(ab)[i] == (DecodeAll(a) + DecodeAll(b))[i];
  }

  /** Filtering twice is filtering once. */
  lemma KeepEntriesIdempotent(items: seq<Json>)
    ensures KeepEntries(KeepEntries(items)) == KeepEntries(items)
  {
    KeepEntriesAllShaped(KeepEntries(items));
  }

  lemma {:induction false} DecodeEncodeAll(es: seq<Entry>)
    ensures forall i :: 0 <= i < |EncodeAll(es)| ==> IsEntryShaped(EncodeAll(es)[i])
    ensures DecodeAll(EncodeAll(es)) == es
  {
    if es != [] {
      DecodeEncodeAll(es[1..]);
      assert EncodeAll(es)[1..] == EncodeAll(es[1..]);
      assert es == [es[0]] + es[1..];
    }
  }

  /** Saving a list and loading it back gives the same list, in the same order. */
  lemma LoadSave(es: seq<Entry>)
    ensures Load(Save(es)) == es
  {
    DecodeEncodeAll(es);
    KeepEntriesAllShaped(EncodeAll(es));
  }

  /**
   * Loading an array works element by element and keeps the order: the entries of
   * a concatenation are the entries of its parts, one after the other.
   */
  lemma LoadAppend(a: seq<Json>, b: seq<Json>)
    ensures Load(Stored(JArr(a + b))) == Load(Stored(JArr(a))) + Load(Stored(JArr(b)))
  {
    KeepEntriesAppend(a, b);
    DecodeAllAppend(KeepEntries(a), KeepEntries(b));
  }

  /** A one-element array loads as its entry when the element is shaped, and as nothing otherwise. */
  lemma LoadOne(x: Json)
    ensures Load(Stored(JArr([x]))) == if IsEntryShaped(x) then [Decode(x)] else []
  {
    assert [x][1..] == [];
  }

  /** A stored array mixing entries and other values loads as its entries alone, in order. */
  lemma LoadDropsMalformed(es: seq<Entry>, junk: Json)
    requires !IsEntryShaped(junk)
    ensures Load(Stored(JArr([junk] + EncodeAll(es) + [junk]))) == es
  {
    var items := EncodeAll(es);
    assert KeepEntries([junk]) == [] by {
      assert [junk][1..] == [];
    }
    DecodeEncodeAll(es);
    KeepEntriesAllShaped(items);
    KeepEntriesAppend([junk], items);
    assert KeepEntries([junk] + items) == items;
    KeepEntriesAppend([junk] + items, [junk]);
    assert KeepEntries([junk] + items + [junk]) == items;
  }
}
