/**
 * The `bmi_records` table and the handlers of `BMICalculator` that read and
 * change it: `calculate_bmi`, `view_history` with its `delete_selected`,
 * `show_graph` and `clear_history` (BMI.py:156-395). The table is held in
 * memory; the dialogs' yes/no answers are parameters.
 */
module Store {
  import opened Wrappers
  import opened Text
  import opened Classification
  import opened Validation
  import opened Records

  /** What "Calculate BMI" ends with: a warning, or the row it saved. */
  datatype CalcOutcome = Rejected(reason: Verdict) | Saved(record: Record)

  /** What "View History" shows. */
  datatype HistoryView = NoHistory | History(records: seq<Record>)

  /** What "Delete Selected" ends with. */
  datatype DeleteOutcome = NoSelection | DeleteCancelled | Deleted

  /** What "Show Graph" ends with; only `Plot` draws a chart, of these rows in this order. */
  datatype TrendView = NeedName | NoData(name: string) | InsufficientData(name: string)
                     | Plot(name: string, records: seq<Record>)

  /** What "Clear History" ends with. */
  datatype ClearOutcome = NothingToClear | ClearCancelled(count: nat) | Cleared(count: nat)

  class BmiCalculator {
    /** The table's rows in rowid order. */
    var rows: seq<Record>
    /** The id AUTOINCREMENT gives the next row: one more than the largest id ever given. */
    var nextId: nat
    /** Every id ever given out, including those of deleted rows. */
    ghost var issued: set<nat>

    ghost predicate Valid()
      reads this
    {
      && nextId >= 1
      && (forall id :: id in issued ==> id < nextId)
      && (forall i :: 0 <= i < |rows| ==> rows[i].id in issued)
      && IdsIncreasing(rows)
    }

    /** Every row is one that `calculate_bmi` could have written. */
    ghost predicate Consistent()
      reads this
    {
      forall i :: 0 <= i < |rows| ==> WellFormed(rows[i])
    }

    /** A freshly created, empty table (`CREATE TABLE IF NOT EXISTS` on a new file). */
    constructor ()
      ensures Valid() && Consistent()
      ensures rows == [] && nextId == 1 && issued == {}
    {
      rows := [];
      nextId := 1;
      issued := {};
    }

    /** `INSERT INTO bmi_records VALUES (NULL, ...)`: the new row gets a fresh id, above all earlier ones. */
    method Insert(name: string, weight: real, height: real, bmi: real, category: Category, date: Date)
      returns (id: nat)
      requires Valid()
      modifies this
      ensures Valid()
      ensures id == old(nextId) && id !in old(issued)
      ensures forall k :: k in old(issued) ==> k < id
      ensures issued == old(issued) + {id} && nextId == id + 1
      ensures rows == old(rows) + [Record(id, name, weight, height, bmi, category, date)]
      ensures Consistent() <==> old(Consistent()) && WellFormed(rows[|rows| - 1])
    {
      id := nextId;
      rows := rows + [Record(id, name, weight, height, bmi, category, date)];
      nextId := nextId + 1;
      issued := issued + {id};
      if Consistent() {
        forall i | 0 <= i < |old(rows)| ensures WellFormed(old(rows)[i]) {
          assert rows[i] == old(rows)[i];
        }
      }
    }

    /** `SELECT COUNT(*) FROM bmi_records`. */
    method Count() returns (n: nat)
      ensures n == |rows|
    {
      n := |rows|;
    }

    /** `DELETE FROM bmi_records WHERE name=? AND date=? AND bmi=?`: every matching row goes. */
    method DeleteMatching(k: Key)
      requires Valid()
      modifies this
      ensures Valid()
      ensures rows == Surviving(old(rows), {k})
      ensures nextId == old(nextId) && issued == old(issued)
      ensures old(Consistent()) ==> Consistent()
    {
      var before := rows;
      SurvivingKeepsIdsIncreasing(before, {k});
      rows := Surviving(before, {k});
      forall i | 0 <= i < |rows|
        ensures rows[i].id in issued
        ensures old(Consistent()) ==> WellFormed(rows[i])
      {
        assert rows[i] in rows;
        var j :| 0 <= j < |before| && before[j] == rows[i];
      }
    }

    /** `DELETE FROM bmi_records`: the id counter is kept, so ids are not reused. */
    method DeleteAll()
      requires Valid()
      modifies this
      ensures Valid() && Consistent()
      ensures rows == [] && nextId == old(nextId) && issued == old(issued)
    {
      rows := [];
    }

    /** `SELECT ... ORDER BY date DESC`: every row, newest first. */
    method ListAll() returns (r: seq<Record>)
      ensures SortedByDate(r, true)
      ensures multiset(r) == multiset(rows)
    {
      r := SortByDate(rows, true);
    }

    /** `SELECT ... WHERE name=? ORDER BY date`: the person's rows, oldest first. */
    method ListByName(name: string) returns (r: seq<Record>)
      ensures SortedByDate(r, false)
      ensures forall x :: x in r ==> x.name == name
      ensures forall x: Record :: x.name == name ==> multiset(r)[x] == multiset(rows)[x]
    {
      r := SortByDate(OfPerson(rows, name), false);
      forall x | x in r ensures x.name == name {
        assert x in multiset(r);
      }
      forall x: Record | x.name == name
        ensures multiset(r)[x] == multiset(rows)[x]
      {
        OfPersonKeepsAll(rows, name, x);
      }
    }

    /**
     * `calculate_bmi`: validate the entries, and only if they pass, compute
     * and classify the BMI and save one row dated `now`.
     */
    method CalculateBmi(nameEntry: string, weightEntry: string, heightEntry: string,
                        parse: string -> Option<real>, now: Date)
      returns (o: CalcOutcome)
      requires Valid()
      modifies this
      ensures Valid()
      ensures o.Rejected? <==> !Validate(nameEntry, weightEntry, heightEntry, parse).Accepted?
      ensures o.Rejected? ==>
        && o.reason == Validate(nameEntry, weightEntry, heightEntry, parse)
        && rows == old(rows) && nextId == old(nextId) && issued == old(issued)
      ensures o.Saved? ==>
        && rows == old(rows) + [o.record]
        && WellFormed(o.record)
        && o.record.id == old(nextId) && o.record.id !in old(issued)
        && (forall k :: k in old(issued) ==> k < o.record.id)
        && issued == old(issued) + {o.record.id}
        && nextId == old(nextId) + 1
        && o.record.name == Strip(nameEntry) && o.record.date == now
        && Some(o.record.weight) == parse(Strip(weightEntry))
        && Some(o.record.height) == parse(Strip(heightEntry))
      ensures old(Consistent()) ==> Consistent()
    {
      var v := Validate(nameEntry, weightEntry, heightEntry, parse);
      if !v.Accepted? {
        return Rejected(v);
      }
      var bmi := Bmi(v.weight, v.height);
      var category := Classify(bmi);
      var id := Insert(v.name, v.weight, v.height, bmi, category, now);
      o := Saved(Record(id, v.name, v.weight, v.height, bmi, category, now));
    }

    /** `view_history`: every row newest first, or a notice when the table is empty. */
    method ViewHistory() returns (h: HistoryView)
      ensures h == NoHistory <==> rows == []
      ensures h.History? ==> SortedByDate(h.records, true) && multiset(h.records) == multiset(rows)
    {
      var records := ListAll();
      if records == [] {
        assert |multiset(rows)| == 0;
        return NoHistory;
      }
      h := History(records);
    }

    /**
     * `delete_selected`: with a non-empty selection and a confirmation, one
     * DELETE per selected row; every row matching any selected triple goes
     * and the rest stay in order.
     */
    method DeleteSelected(selected: seq<Key>, confirmed: bool) returns (o: DeleteOutcome)
      requires Valid()
      modifies this
      ensures Valid()
      ensures o == NoSelection <==> selected == []
      ensures o == DeleteCancelled <==> selected != [] && !confirmed
      ensures o == Deleted ==> rows == Surviving(old(rows), KeySet(selected))
      ensures o != Deleted ==> rows == old(rows)
      ensures nextId == old(nextId) && issued == old(issued)
      ensures old(Consistent()) ==> Consistent()
    {
      if selected == [] {
        return NoSelection;
      }
      if !confirmed {
        return DeleteCancelled;
      }
      ghost var before := rows;
      var i := 0;
      SurvivingNone(rows);
      assert KeySet(selected[..0]) == {};
      while i < |selected|
        invariant 0 <= i <= |selected|
        invariant Valid()
        invariant rows == Surviving(before, KeySet(selected[..i]))
        invariant nextId == old(nextId) && issued == old(issued)
        invariant old(Consistent()) ==> Consistent()
      {
        SurvivingTwice(before, KeySet(selected[..i]), selected[i]);
        KeySetStep(selected, i);
        DeleteMatching(selected[i]);
        i := i + 1;
      }
      assert selected[..i] == selected;
      o := Deleted;
    }

    /**
     * `show_graph`: a name is needed; then the person's rows, oldest first,
     * are plotted only when there are at least two of them.
     */
    method ShowGraph(nameEntry: string) returns (t: TrendView)
      ensures t == NeedName <==> Strip(nameEntry) == []
      ensures t.NoData? <==> Strip(nameEntry) != [] && OfPerson(rows, Strip(nameEntry)) == []
      ensures t.InsufficientData? <==> Strip(nameEntry) != [] && |OfPerson(rows, Strip(nameEntry))| == 1
      ensures t.Plot? <==> Strip(nameEntry) != [] && |OfPerson(rows, Strip(nameEntry))| >= 2
      ensures !t.NeedName? ==> t.name == Strip(nameEntry)
      ensures t.Plot? ==>
        && SortedByDate(t.records, false)
        && multiset(t.records) == multiset(OfPerson(rows, t.name))
    {
      var name := Strip(nameEntry);
      if name == [] {
        return NeedName;
      }
      var records := SortByDate(OfPerson(rows, name), false);
      assert |records| == |multiset(records)| == |OfPerson(rows, name)|;
      if records == [] {
        return NoData(name);
      }
      if |records| < 2 {
        return InsufficientData(name);
      }
      t := Plot(name, records);
    }

    /**
     * `clear_history`: nothing happens on an empty table; otherwise, once
     * the user confirms, every row is deleted.
     */
    method ClearHistory(confirmed: bool) returns (o: ClearOutcome)
      requires Valid()
      modifies this
      ensures Valid()
      ensures old(rows) == [] ==> o == NothingToClear
      ensures old(rows) != [] && !confirmed ==> o == ClearCancelled(|old(rows)|)
      ensures old(rows) != [] && confirmed ==> o == Cleared(|old(rows)|)
      ensures rows == if o.Cleared? then [] else old(rows)
      ensures nextId == old(nextId) && issued == old(issued)
      ensures old(Consistent()) ==> Consistent()
    {
      var count := Count();
      if count == 0 {
        return NothingToClear;
      }
      if !confirmed {
        return ClearCancelled(count);
      }
      DeleteAll();
      o := Cleared(count);
    }
  }

  /** Clearing twice: the second time the table is already empty and nothing happens. */
  method ClearHistoryTwice(t: BmiCalculator) returns (first: ClearOutcome, second: ClearOutcome)
    requires t.Valid()
    modifies t
    ensures first == if old(t.rows) == [] then NothingToClear else Cleared(|old(t.rows)|)
    ensures second == NothingToClear
    ensures t.Valid() && t.Consistent()
    ensures t.rows == [] && t.nextId == old(t.nextId)
  {
    first := t.ClearHistory(true);
    second := t.ClearHistory(true);
  }

  /** A saved row shows up in the history, as it was saved. */
  method SaveThenViewHistory(t: BmiCalculator, nameEntry: string, weightEntry: string, heightEntry: string,
                             parse: string -> Option<real>, now: Date)
    returns (o: CalcOutcome, h: HistoryView)
    requires t.Valid()
    modifies t
    ensures t.Valid()
    ensures old(t.Consistent()) ==> t.Consistent()
    ensures o.Saved? ==> h.History? && o.record in h.records
    ensures o.Saved? ==> forall x :: x in old(t.rows) ==> x.id < o.record.id
  {
    o := t.CalculateBmi(nameEntry, weightEntry, heightEntry, parse, now);
    h := t.ViewHistory();
    if o.Saved? {
      assert o.record in multiset(t.rows);
      assert o.record in multiset(h.records);
      forall x | x in old(t.rows) ensures x.id < o.record.id {
        var i :| 0 <= i < |old(t.rows)| && old(t.rows)[i] == x;
      }
    }
  }
}
