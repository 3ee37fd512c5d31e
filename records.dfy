/**
 * Rows of the `bmi_records` table (BMI.py:25-35) and the row selections the
 * program's SQL statements make: DELETE by (name, date, bmi), SELECT by name,
 * ORDER BY date.
 */
module Records {
  import opened Text
  import opened Classification

  /**
   * The `date` column. The program writes it as "%Y-%m-%d %H:%M:%S", whose
   * text order is time order; here it is a count of seconds.
   */
  type Date = int

  datatype Record = Record(id: nat, name: string, weight: real, height: real, bmi: real,
                           category: Category, date: Date)

  /** The triple `delete_selected` matches on. */
  datatype Key = Key(name: string, date: Date, bmi: real)

  function KeyOf(r: Record): Key
  {
    Key(r.name, r.date, r.bmi)
  }

  /** What every row written by `calculate_bmi` satisfies. */
  ghost predicate WellFormed(r: Record)
  {
    && r.name != [] && Trimmed(r.name)
    && r.weight > 0.0
    && 0.0 < r.height <= 3.0
    && r.bmi == Bmi(r.weight, r.height)
    && r.category == Classify(r.bmi)
  }

  /** Ids strictly increase along the sequence. */
  ghost predicate IdsIncreasing(rows: seq<Record>)
  {
    forall i, j :: 0 <= i < j < |rows| ==> rows[i].id < rows[j].id
  }

  /** `a` can be obtained from `b` by dropping elements, keeping the order of the rest. */
  ghost predicate IsSubsequence(a: seq<Record>, b: seq<Record>)
    decreases |b|
  {
    a == [] || (b != [] && if a[0] == b[0] then IsSubsequence(a[1..], b[1..]) else IsSubsequence(a, b[1..]))
  }

  /** The keys of a selection, duplicates folded. */
  function KeySet(selection: seq<Key>): set<Key>
  {
    set k | k in selection
  }

  /** Selecting one more row adds its key. */
  lemma KeySetStep(selection: seq<Key>, i: nat)
    requires i < |selection|
    ensures KeySet(selection[..i + 1]) == KeySet(selection[..i]) + {selection[i]}
  {
    assert selection[..i + 1] == selection[..i] + [selection[i]];
  }

  /** The rows left after deleting every row whose key is one of `keys`. */
  function Surviving(rows: seq<Record>, keys: set<Key>): (s: seq<Record>)
    ensures |s| <= |rows|
    ensures forall x :: x in s <==> x in rows && KeyOf(x) !in keys
  {
    if rows == [] then []
    else if KeyOf(rows[0]) in keys then Surviving(rows[1..], keys)
    else [rows[0]] + Surviving(rows[1..], keys)
  }

  /** Deleting by no key keeps every row. */
  lemma {:induction false} SurvivingNone(rows: seq<Record>)
    ensures Surviving(rows, {}) == rows
  {
    if rows != [] {
      SurvivingNone(rows[1..]);
      assert rows == [rows[0]] + rows[1..];
    }
  }

  /** Deleting keeps the order of the rows that stay. */
  lemma {:induction false} SurvivingIsSubsequence(rows: seq<Record>, keys: set<Key>)
    ensures IsSubsequence(Surviving(rows, keys), rows)
  {
    if rows != [] {
      var s := Surviving(rows, keys);
      SurvivingIsSubsequence(rows[1..], keys);
      if KeyOf(rows[0]) !in keys {
        assert s[0] == rows[0] && s[1..] == Surviving(rows[1..], keys);
      } else if s != [] {
        assert s[0] in s;
      }
    }
  }

  /** A row whose key is not deleted stays as many times as it was there. */
  lemma {:induction false} SurvivingKeepsUnmatched(rows: seq<Record>, keys: set<Key>, x: Record)
    requires KeyOf(x) !in keys
    ensures multiset(Surviving(rows, keys))[x] == multiset(rows)[x]
  {
    if rows != [] {
      SurvivingKeepsUnmatched(rows[1..], keys, x);
      assert rows == [rows[0]] + rows[1..];
    }
  }

  /** Deleting by one key after another is deleting by all of them. */
  lemma {:induction false} SurvivingTwice(rows: seq<Record>, keys: set<Key>, k: Key)
    ensures Surviving(Surviving(rows, keys), {k}) == Surviving(rows, keys + {k})
  {
    if rows != [] {
      SurvivingTwice(rows[1..], keys, k);
    }
  }

  /** Deleting keeps ids increasing. */
  lemma {:induction false} SurvivingKeepsIdsIncreasing(rows: seq<Record>, keys: set<Key>)
    requires IdsIncreasing(rows)
    ensures IdsIncreasing(Surviving(rows, keys))
  {
    if rows != [] {
      SurvivingKeepsIdsIncreasing(rows[1..], keys);
      var rest := Surviving(rows[1..], keys);
      forall x | x in rest ensures rows[0].id < x.id {
        var j :| 0 <= j < |rows[1..]| && rows[1..][j] == x;
        assert rows[j + 1] == x;
      }
    }
  }

  /** The rows of one person: `WHERE name=?`. */
  function OfPerson(rows: seq<Record>, name: string): (s: seq<Record>)
    ensures |s| <= |rows|
    ensures forall x :: x in s <==> x in rows && x.name == name
  {
    if rows == [] then []
    else if rows[0].name == name then [rows[0]] + OfPerson(rows[1..], name)
    else OfPerson(rows[1..], name)
  }

  /** Every row of the person is kept, as many times as it occurs. */
  lemma {:induction false} OfPersonKeepsAll(rows: seq<Record>, name: string, x: Record)
    requires x.name == name
    ensures multiset(OfPerson(rows, name))[x] == multiset(rows)[x]
  {
    if rows != [] {
      OfPersonKeepsAll(rows[1..], name, x);
      assert rows == [rows[0]] + rows[1..];
    }
  }

  /** `a` may come before `b` in `ORDER BY date` (oldest first) or `ORDER BY date DESC`. */
  predicate InOrder(a: Record, b: Record, newestFirst: bool)
  {
    if newestFirst then a.date >= b.date else a.date <= b.date
  }

  ghost predicate SortedByDate(s: seq<Record>, newestFirst: bool)
  {
    forall i, j :: 0 <= i < j < |s| ==> InOrder(s[i], s[j], newestFirst)
  }

  /** A row that may precede the head of a sorted sequence may precede all of it. */
  lemma SortedCons(a: Record, t: seq<Record>, newestFirst: bool)
    requires SortedByDate(t, newestFirst)
    requires t != [] ==> InOrder(a, t[0], newestFirst)
    ensures SortedByDate([a] + t, newestFirst)
  {
    var r := [a] + t;
    forall i, j | 0 <= i < j < |r| ensures InOrder(r[i], r[j], newestFirst) {
      if i == 0 && j > 1 {
        assert InOrder(t[0], t[j - 1], newestFirst);
      }
    }
  }

  /** Places `x` before the first row of `s` it may precede. */
  function InsertByDate(x: Record, s: seq<Record>, newestFirst: bool): (r: seq<Record>)
    ensures multiset(r) == multiset(s) + multiset{x}
  {
    if s == [] || InOrder(x, s[0], newestFirst) then
      [x] + s
    else
      assert s == [s[0]] + s[1..];
      [s[0]] + InsertByDate(x, s[1..], newestFirst)
  }

  /** Inserting into a date-ordered sequence keeps it date-ordered. */
  lemma {:induction false} InsertByDateSorted(x: Record, s: seq<Record>, newestFirst: bool)
    requires SortedByDate(s, newestFirst)
    ensures SortedByDate(InsertByDate(x, s, newestFirst), newestFirst)
    ensures InsertByDate(x, s, newestFirst)[0] == x || (s != [] && InsertByDate(x, s, newestFirst)[0] == s[0])
  {
    if s == [] || InOrder(x, s[0], newestFirst) {
      SortedCons(x, s, newestFirst);
    } else {
      InsertByDateSorted(x, s[1..], newestFirst);
      SortedCons(s[0], InsertByDate(x, s[1..], newestFirst), newestFirst);
    }
  }

  /** The rows ordered by date; rows with the same date keep their table order. */
  function SortByDate(s: seq<Record>, newestFirst: bool): (r: seq<Record>)
    ensures SortedByDate(r, newestFirst)
    ensures multiset(r) == multiset(s)
  {
    if s == [] then []
    else
      var rest := SortByDate(s[1..], newestFirst);
      assert s == [s[0]] + s[1..];
      InsertByDateSorted(s[0], rest, newestFirst);
      InsertByDate(s[0], rest, newestFirst)
  }
}
