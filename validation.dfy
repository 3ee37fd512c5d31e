/**
 * The checks `calculate_bmi` runs on the three entry fields before it
 * computes anything (BMI.py:158-193, 229-230). Number parsing, Python's
 * `float()`, is a parameter: it gives `None` where `float()` raises `ValueError`.
 */
module Validation {
  import opened Wrappers
  import opened Text

  /** What the checks decide: the entries to use, or the one warning shown to the user. */
  datatype Verdict =
    | Accepted(name: string, weight: real, height: real)
    | MissingName
    | MissingWeight
    | MissingHeight
    | NotNumeric
    | WeightNonPositive
    | HeightNonPositive
    | HeightTooLarge

  /** The rejections in the order the checks are made. */
  const Rules: seq<Verdict> :=
    [MissingName, MissingWeight, MissingHeight, NotNumeric, WeightNonPositive, HeightNonPositive, HeightTooLarge]

  /** Where a rejection stands in `Rules`. */
  function Position(v: Verdict): (k: nat)
    requires !v.Accepted?
    ensures k < |Rules| && Rules[k] == v
  {
    match v
    case MissingName => 0
    case MissingWeight => 1
    case MissingHeight => 2
    case NotNumeric => 3
    case WeightNonPositive => 4
    case HeightNonPositive => 5
    case HeightTooLarge => 6
  }

  /**
   * Whether the stripped entries break rule `e`, judged on its own, whatever
   * the other rules say.
   */
  predicate Breaks(e: Verdict, name: string, weightText: string, heightText: string,
                   parse: string -> Option<real>)
  {
    var w := parse(weightText);
    var h := parse(heightText);
    match e
    case Accepted(_, _, _) => false
    case MissingName => name == []
    case MissingWeight => weightText == []
    case MissingHeight => heightText == []
    case NotNumeric => w.None? || h.None?
    case WeightNonPositive => w.Some? && w.value <= 0.0
    case HeightNonPositive => h.Some? && h.value <= 0.0
    case HeightTooLarge => h.Some? && h.value > 3.0
  }

  /**
   * The validation chain of `calculate_bmi`. Both numbers are parsed before
   * either is range-checked, so a negative weight with an unparsable height
   * is reported as not numeric.
   */
  function Validate(nameEntry: string, weightEntry: string, heightEntry: string,
                    parse: string -> Option<real>): (v: Verdict)
    // what is accepted is the stripped name and the parsed numbers, within range
    ensures v.Accepted? ==>
      && v.name == Strip(nameEntry) && v.name != []
      && parse(Strip(weightEntry)) == Some(v.weight) && v.weight > 0.0
      && parse(Strip(heightEntry)) == Some(v.height) && 0.0 < v.height <= 3.0
  {
    Check(Strip(nameEntry), Strip(weightEntry), Strip(heightEntry), parse)
  }

  /** The chain of checks on the already stripped entries. */
  function Check(name: string, weightText: string, heightText: string,
                 parse: string -> Option<real>): (v: Verdict)
    ensures v.Accepted? ==>
      && v.name == name && name != []
      && parse(weightText) == Some(v.weight) && v.weight > 0.0
      && parse(heightText) == Some(v.height) && 0.0 < v.height <= 3.0
  {
    if name == [] then MissingName
    else if weightText == [] then MissingWeight
    else if heightText == [] then MissingHeight
    else
      var w := parse(weightText);
      var h := parse(heightText);
      if w.None? || h.None? then NotNumeric
      else if w.value <= 0.0 then WeightNonPositive
      else if h.value <= 0.0 then HeightNonPositive
      else if h.value > 3.0 then HeightTooLarge
      else Accepted(name, w.value, h.value)
  }

  /**
   * The checks report the first broken rule: the entries are accepted exactly
   * when no rule is broken, and a rejection names a broken rule all of whose
   * predecessors hold.
   */
  lemma ValidateReportsFirstBrokenRule(nameEntry: string, weightEntry: string, heightEntry: string,
                                       parse: string -> Option<real>)
    ensures var v := Validate(nameEntry, weightEntry, heightEntry, parse);
      var (name, w, h) := (Strip(nameEntry), Strip(weightEntry), Strip(heightEntry));
      && (v.Accepted? <==> forall k :: 0 <= k < |Rules| ==> !Breaks(Rules[k], name, w, h, parse))
      && (!v.Accepted? ==>
            && Breaks(v, name, w, h, parse)
            && forall k :: 0 <= k < Position(v) ==> !Breaks(Rules[k], name, w, h, parse))
  {
    CheckReportsFirstBrokenRule(Strip(nameEntry), Strip(weightEntry), Strip(heightEntry), parse);
  }

  lemma CheckReportsFirstBrokenRule(name: string, weightText: string, heightText: string,
                                    parse: string -> Option<real>)
    ensures var v := Check(name, weightText, heightText, parse);
      && (v.Accepted? <==> forall k :: 0 <= k < |Rules| ==> !Breaks(Rules[k], name, weightText, heightText, parse))
      && (!v.Accepted? ==>
            && Breaks(v, name, weightText, heightText, parse)
            && forall k :: 0 <= k < Position(v) ==> !Breaks(Rules[k], name, weightText, heightText, parse))
  {
    var v := Check(name, weightText, heightText, parse);
    if !v.Accepted? {
      assert Rules[Position(v)] == v;
    }
  }

  /** Whitespace around an entry never changes the verdict. */
  lemma ValidateIgnoresSurroundingSpace(nameEntry: string, weightEntry: string, heightEntry: string,
                                        parse: string -> Option<real>)
    ensures Validate(Strip(nameEntry), Strip(weightEntry), Strip(heightEntry), parse)
         == Validate(nameEntry, weightEntry, heightEntry, parse)
  {
    StripIdempotent(nameEntry);
    StripIdempotent(weightEntry);
    StripIdempotent(heightEntry);
  }

  /** An entry that is only whitespace counts as missing. */
  lemma BlankNameIsMissing(nameEntry: string, weightEntry: string, heightEntry: string,
                           parse: string -> Option<real>)
    requires AllSpace(nameEntry)
    ensures Validate(nameEntry, weightEntry, heightEntry, parse) == MissingName
  {
    StripEmptyIffBlank(nameEntry);
  }
}
